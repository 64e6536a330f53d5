/** Hang detection across processes: once a worker's stamp has gone stale and a late enough pass
    has published, its bit stays out of M_Sel until it stamps again, whatever the other workers
    publish meanwhile (userspace_simulation/src/worker.rs and scheduler.rs). */
module Eviction {
  import opened Words
  import opened SpscRing
  import opened Scheduler
  import opened Simulation
  import opened WorkerInvariant
  import opened SystemInvariant
  import opened Guarantees
  import Dispatcher

  /** The stamp of worker w that an unfinished pass already holds. */
  function HeldStamp(pc: WorkerPc, w: nat): Option<int>
    requires InPass(pc)
  {
    if w < |pc.got| then Some(pc.got[w].stamp)
    else if w == |pc.got| && (pc.SnapPending? || pc.SnapConns?) then Some(pc.stamp)
    else None
  }

  /** The pass was timed at or after `late` and does not hold w's cold zero stamp. */
  ghost predicate LatePass(pc: WorkerPc, w: nat, late: int) {
    InPass(pc) ==> pc.now >= late && HeldStamp(pc, w) != Some(0)
  }

  ghost predicate AllPassesLate(s: State, w: nat, late: int) {
    forall v :: 0 <= v < |s.workers| ==> LatePass(s.workers[v].pc, w, late)
  }

  /** Worker w, last stamped at t, is out of the map and nobody can put it back. */
  ghost predicate Evicted(c: Config, s: State, w: nat, t: int) {
    && InShape(c, s) && w < c.W
    && s.table[w].stamp == t != 0 && s.clock >= t + c.threshold
    && !Bit(s.msel, w)
    && AllPassesLate(s, w, t + c.threshold)
  }

  /** The step in which w stores a new stamp. */
  predicate Stamps(s: State, a: Action, w: nat) {
    a.WorkerStep? && a.w == w && w < |s.workers| && s.workers[w].pc.StampStore?
  }

  /** With w stale at the pass's clock reading, stage 1 lets w through exactly when the pass read
      w's row before w ever stored a stamp. */
  lemma LetThroughIffColdRead(c: Config, s: State, v: nat, w: nat)
    requires Inv(c, s) && v < c.W && w < c.W && s.workers[v].pc.Publish?
    requires s.workers[v].pc.now >= s.table[w].stamp + c.threshold
    ensures var pc := s.workers[v].pc;
            |pc.got| == c.W && (w in Stage1(pc.got, pc.now, c.threshold) <==> pc.got[w].stamp == 0)
  {
    hide RingsOk, WorkersOk, AccountsOk, ExamOk, Pow2;
    assert PassOk(s.workers[v].pc, s.clock, s.table);
  }

  /** The exact condition on the published map: a pass timed at or after w's stamp + threshold
      leaves bit w set if and only if it read w's zero stamp and both of w's counters, as read,
      pass the load filters' integer test. */
  lemma StaleBitSetIff(c: Config, s: State, v: nat, w: nat)
    requires Inv(c, s) && v < c.W && w < c.W && s.workers[v].pc.Publish?
    requires s.workers[v].pc.now >= s.table[w].stamp + c.threshold
    ensures var pc := s.workers[v].pc;
            var live, lighter := Stage1(pc.got, pc.now, c.threshold), Stage2(pc.got, pc.now, c.threshold);
            && |pc.got| == c.W
            && (Bit(Published(c, pc, s.msel), w) <==>
                  && pc.got[w].stamp == 0
                  && Survives(pc.got[w].conns, Sum(live, Conns(pc.got)), |live|)
                  && Survives(pc.got[w].pending, Sum(lighter, Pendings(pc.got)), |lighter|))
  {
    hide RingsOk, WorkersOk, AccountsOk, ExamOk, PassesOk, Pow2, Schedule, Survives, Bit, FilterBelowBaseline, Published;
    LetThroughIffColdRead(c, s, v, w);
    PublishedLow(c, s, v);
    SetBitIff(s.workers[v].pc.got, s.workers[v].pc.now, c.threshold, w);
  }

  // ---- frames ----

  lemma GenLeavesTable(c: Config, s: State, service: nat)
    requires c.W > 0
    ensures var s' := StepGen(c, s, service);
            s'.workers == s.workers && s'.table == s.table && s'.msel == s.msel && s'.clock == s.clock
  {
    hide Touch, GenHash, PickHermes, PickReuseport;
  }

  lemma OnlyStampStores(c: Config, v: View, clock: int, shutdown: bool, table: seq<Snapshot>, flag: bool)
    requires !v.me.pc.StampStore?
    ensures StepWorker(c, v, clock, shutdown, table, flag).slot.stamp == v.slot.stamp
  {
    hide Touch;
  }

  /** A pass begins with the current clock, and reads rows as they now are. */
  lemma PassStaysLate(c: Config, v: View, clock: int, shutdown: bool, table: seq<Snapshot>, flag: bool, w: nat, t: int)
    requires w < |table| && table[w].stamp == t != 0 && clock >= t + c.threshold
    requires LatePass(v.me.pc, w, t + c.threshold)
    ensures LatePass(StepWorker(c, v, clock, shutdown, table, flag).me.pc, w, t + c.threshold)
  {
    hide StepBranch, StepBurst, StepPoll, StepAccept, StepExit;
    if !InPass(v.me.pc) && !v.me.pc.PassRead? {
      OnlyPassReadStarts(c, v, clock, shutdown, table, flag);
    }
  }

  /** A late pass that publishes clears w's bit. */
  lemma LatePublishClears(c: Config, s: State, v: nat, w: nat, t: int)
    requires Inv(c, s) && v < c.W && w < c.W && s.table[w].stamp == t
    requires s.workers[v].pc.Publish? && LatePass(s.workers[v].pc, w, t + c.threshold)
    ensures !Bit(Published(c, s.workers[v].pc, s.msel), w)
  {
    hide Schedule, Pow2, Stage1, Bit;
    var pc := s.workers[v].pc;
    LetThroughIffColdRead(c, s, v, w);
    ScheduleBitmap(pc.got, pc.now, c.threshold);
    FitsWord(Schedule(pc.got, pc.now, c.threshold).bitmap, c.W);
  }

  // ---- eviction lasts ----

  lemma EvictionSurvivesWorker(c: Config, s: State, v: nat, flag: bool, w: nat, t: int)
    requires Inv(c, s) && Evicted(c, s, w, t) && v < c.W && !Stamps(s, WorkerStep(v, flag), w)
    ensures Evicted(c, Step(c, s, WorkerStep(v, flag)), w, t)
  {
    hide StepWorker, Published, LatePass, RingsOk, WorkersOk, PassesOk, AccountsOk, ExamOk, Bit;
    StepKeepsInv(c, s, WorkerStep(v, flag));
    var view := ViewOf(s, v);
    PassStaysLate(c, view, s.clock, s.shutdown, s.table, flag, w, t);
    if v == w { OnlyStampStores(c, view, s.clock, s.shutdown, s.table, flag); }
    if s.workers[v].pc.Publish? {
      LatePublishClears(c, s, v, w, t);
    } else {
      PublishedOtherwise(c, s, v);
    }
  }

  lemma EvictionSurvivesStep(c: Config, s: State, a: Action, w: nat, t: int)
    requires Inv(c, s) && Evicted(c, s, w, t) && !Stamps(s, a, w)
    ensures Evicted(c, Step(c, s, a), w, t)
  {
    hide StepGen, StepWorker, Published;
    match a
    case Advance(_) =>
    case GenStep(service) =>
      GenLeavesTable(c, s, service);
      StepKeepsInv(c, s, a);
    case WorkerStep(v, flag) =>
      if v < c.W { EvictionSurvivesWorker(c, s, v, flag, w, t); }
  }

  lemma PublishedOtherwise(c: Config, s: State, v: nat)
    requires v < |s.workers| && !s.workers[v].pc.Publish?
    ensures Published(c, s.workers[v].pc, s.msel) == s.msel
  {
  }

  /** No action of the schedule stores a new stamp of w. */
  ghost predicate NoStamp(c: Config, s: State, schedule: seq<Action>, w: nat)
    requires c.W > 0
    decreases |schedule|
  {
    schedule == [] || (!Stamps(s, schedule[0], w) && NoStamp(c, Step(c, s, schedule[0]), schedule[1..], w))
  }

  lemma {:induction false} EvictionLasts(c: Config, s: State, schedule: seq<Action>, w: nat, t: int)
    requires c.W > 0 && Inv(c, s) && Evicted(c, s, w, t) && NoStamp(c, s, schedule, w)
    ensures Evicted(c, Run(c, s, schedule), w, t)
    decreases |schedule|
  {
    hide Inv, Evicted, Step;
    if schedule != [] {
      EvictionSurvivesStep(c, s, schedule[0], w, t);
      StepKeepsInv(c, s, schedule[0]);
      EvictionLasts(c, Step(c, s, schedule[0]), schedule[1..], w, t);
    }
  }

  /** Eviction happens at the publish of any pass timed at or after stamp + threshold, if no
      earlier-timed pass and no pass holding w's cold stamp is still unpublished. */
  lemma PublishEvicts(c: Config, s: State, v: nat, flag: bool, w: nat)
    requires Inv(c, s) && v < c.W && w < c.W && s.table[w].stamp != 0
    requires s.workers[v].pc.Publish? && AllPassesLate(s, w, s.table[w].stamp + c.threshold)
    ensures Evicted(c, Step(c, s, WorkerStep(v, flag)), w, s.table[w].stamp)
  {
    hide Published;
    var t := s.table[w].stamp;
    assert LatePass(s.workers[v].pc, w, t + c.threshold);
    assert PassOk(s.workers[v].pc, s.clock, s.table);
    LatePublishClears(c, s, v, w, t);
  }

  /** The whole story for any run: whatever happened before, once such a pass publishes, M_Sel has
      bit w clear after every continuation in which w does not stamp, and the Hermes dispatcher
      picks w only by falling back to the plain hash. */
  lemma HungWorkerStaysOut(c: Config, clock: nat, before: seq<Action>, v: nat, flag: bool, w: nat, after: seq<Action>)
    requires ValidConfig(c) && v < c.W && w < c.W
    requires var s := Run(c, Init(c, clock), before);
             && InShape(c, s) && s.table[w].stamp != 0 && s.workers[v].pc.Publish?
             && AllPassesLate(s, w, s.table[w].stamp + c.threshold)
             && NoStamp(c, Step(c, s, WorkerStep(v, flag)), after, w)
    ensures var s' := Run(c, Step(c, Run(c, Init(c, clock), before), WorkerStep(v, flag)), after);
            !Bit(s'.msel, w) && (CountOnes(s'.msel) >= 2 ==> PickHermes(c, s') != w)
  {
    hide Run, Init, Step, Inv, Bit, PickHermes;
    ReachableInv(c, clock, before);
    var s := Run(c, Init(c, clock), before);
    var s1 := Step(c, s, WorkerStep(v, flag));
    PublishEvicts(c, s, v, flag, w);
    StepKeepsInv(c, s, WorkerStep(v, flag));
    EvictionLasts(c, s1, after, w, s.table[w].stamp);
    RunKeepsInv(c, s1, after);
    var s' := Run(c, s1, after);
    MselLow(c, s');
    HermesPickIsCandidate(c, s');
  }

  lemma MselLow(c: Config, s: State)
    requires Inv(c, s)
    ensures s.msel < Pow2(c.W)
  {
  }

  // ---- readmission ----

  /** Through the whole schedule worker v stays inside the pass it is in. */
  ghost predicate SamePass(c: Config, s: State, schedule: seq<Action>, v: nat)
    requires c.W > 0
    decreases |schedule|
  {
    && v < |s.workers| && InPass(s.workers[v].pc)
    && (schedule == [] || SamePass(c, Step(c, s, schedule[0]), schedule[1..], v))
  }

  /** v's pass is timed at `now` and holds no stamp of w older than t, nor will it read one. */
  ghost predicate ReadsFresh(c: Config, s: State, v: nat, w: nat, now: int, t: int) {
    && InShape(c, s) && v < c.W && w < c.W
    && s.table[w].stamp >= t
    && InPass(s.workers[v].pc) && s.workers[v].pc.now == now
    && var held := HeldStamp(s.workers[v].pc, w); (held.Some? ==> held.value >= t)
  }

  lemma FreshSurvivesSnap(pc: WorkerPc, table: seq<Snapshot>, w: nat, t: int)
    requires InPass(pc) && InPass(StepSnap(pc, table)) && !pc.Publish?
    requires w < |table| && table[w].stamp >= t
    requires HeldStamp(pc, w).Some? ==> HeldStamp(pc, w).value >= t
    ensures var pc' := StepSnap(pc, table);
            pc'.now == pc.now && (HeldStamp(pc', w).Some? ==> HeldStamp(pc', w).value >= t)
  {
  }

  lemma FreshSurvives(c: Config, s: State, a: Action, v: nat, w: nat, now: int, t: int)
    requires Inv(c, s) && ReadsFresh(c, s, v, w, now, t)
    requires v < |Step(c, s, a).workers| && InPass(Step(c, s, a).workers[v].pc)
    ensures ReadsFresh(c, Step(c, s, a), v, w, now, t)
  {
    hide RingsOk, WorkersOk, PassesOk, AccountsOk, ExamOk, DrainOk, StepGen, StepSnap, Published, HeldStamp,
         StepBranch, StepBurst, StepPoll, StepAccept, StepExit;
    match a
    case Advance(_) =>
    case GenStep(service) =>
      GenLeavesTable(c, s, service);
      StepKeepsInv(c, s, a);
    case WorkerStep(u, flag) =>
      if u < c.W {
        WorkerStepViews(c, s, u, flag);
        if u == v && !s.workers[v].pc.Publish? { FreshSurvivesSnap(s.workers[v].pc, s.table, w, t); }
      }
  }

  lemma {:induction false} FreshLasts(c: Config, s: State, schedule: seq<Action>, v: nat, w: nat, now: int, t: int)
    requires c.W > 0 && Inv(c, s) && ReadsFresh(c, s, v, w, now, t) && SamePass(c, s, schedule, v)
    ensures ReadsFresh(c, Run(c, s, schedule), v, w, now, t) && Inv(c, Run(c, s, schedule))
    decreases |schedule|
  {
    hide Inv, ReadsFresh, Step;
    if schedule != [] {
      var s1 := Step(c, s, schedule[0]);
      assert SamePass(c, s1, schedule[1..], v);
      FreshSurvives(c, s, schedule[0], v, w, now, t);
      StepKeepsInv(c, s, schedule[0]);
      FreshLasts(c, s1, schedule[1..], v, w, now, t);
    }
  }

  lemma PassBeginsFresh(c: Config, s: State, v: nat, flag: bool, w: nat)
    requires Inv(c, s) && c.policy.Hermes? && v < c.W && w < c.W && s.workers[v].pc.PassRead?
    ensures ReadsFresh(c, Step(c, s, WorkerStep(v, flag)), v, w, s.clock, s.table[w].stamp)
  {
    hide RingsOk, WorkersOk, PassesOk, AccountsOk, ExamOk, DrainOk, Published;
  }

  /** Readmission, for any run: a pass that reads its clock while w's stamp is younger than the
      threshold lets w through stage 1 when it publishes, whatever happens in between; the load
      filters alone then decide w's bit. */
  lemma FreshStampReadmits(c: Config, clock: nat, before: seq<Action>, v: nat, flag: bool, w: nat, after: seq<Action>)
    requires ValidConfig(c) && c.policy.Hermes? && v < c.W && w < c.W
    requires var s := Run(c, Init(c, clock), before);
             && InShape(c, s) && s.workers[v].pc.PassRead? && s.clock < s.table[w].stamp + c.threshold
             && SamePass(c, Step(c, s, WorkerStep(v, flag)), after, v)
    requires var s' := Run(c, Step(c, Run(c, Init(c, clock), before), WorkerStep(v, flag)), after);
             v < |s'.workers| && s'.workers[v].pc.Publish?
    ensures var s := Run(c, Init(c, clock), before);
            var s' := Run(c, Step(c, s, WorkerStep(v, flag)), after);
            var pc := s'.workers[v].pc;
            var live, lighter := Stage1(pc.got, pc.now, c.threshold), Stage2(pc.got, pc.now, c.threshold);
            && |pc.got| == c.W && pc.now == s.clock && w in live
            && (Bit(Published(c, pc, s'.msel), w) <==>
                  && Survives(pc.got[w].conns, Sum(live, Conns(pc.got)), |live|)
                  && Survives(pc.got[w].pending, Sum(lighter, Pendings(pc.got)), |lighter|))
  {
    hide Run, Init, Step, Inv, ReadsFresh, Bit, Survives, Published, Stage1, Stage2, SamePass;
    ReachableInv(c, clock, before);
    var s := Run(c, Init(c, clock), before);
    var s1 := Step(c, s, WorkerStep(v, flag));
    PassBeginsFresh(c, s, v, flag, w);
    StepKeepsInv(c, s, WorkerStep(v, flag));
    FreshLasts(c, s1, after, v, w, s.clock, s.table[w].stamp);
    FreshPublish(c, Run(c, s1, after), v, w, s.clock, s.table[w].stamp);
  }

  lemma FreshPublish(c: Config, s: State, v: nat, w: nat, now: int, t: int)
    requires Inv(c, s) && ReadsFresh(c, s, v, w, now, t) && s.workers[v].pc.Publish? && now < t + c.threshold
    ensures var pc := s.workers[v].pc;
            var live, lighter := Stage1(pc.got, pc.now, c.threshold), Stage2(pc.got, pc.now, c.threshold);
            && |pc.got| == c.W && pc.now == now && w in live
            && (Bit(Published(c, pc, s.msel), w) <==>
                  && Survives(pc.got[w].conns, Sum(live, Conns(pc.got)), |live|)
                  && Survives(pc.got[w].pending, Sum(lighter, Pendings(pc.got)), |lighter|))
  {
    hide RingsOk, WorkersOk, AccountsOk, ExamOk, DrainOk, Pow2, Schedule, Survives, Bit, FilterBelowBaseline, Published;
    assert PassOk(s.workers[v].pc, s.clock, s.table);
    PublishedLow(c, s, v);
    SetBitIff(s.workers[v].pc.got, s.workers[v].pc.now, c.threshold, w);
  }

  // ---- why the cold stamp matters ----

  /** The source's constants: four workers, queues of 512, a threshold of 200 ms. */
  const COLD := Config(Dispatcher.NUM_WORKERS, QUEUE_CAP, Hermes, HANG_THRESHOLD_NS, 0, 1, 0, 0, None, None)

  const ZERO_ROW := Snapshot(0, 0, 0)

  /** What varies for worker 1 in this run. */
  datatype Spot = Spot(stamp: int, pc: WorkerPc, consumer: Consumer<ConnDesc>)

  function ColdRing(): Ring<ConnDesc> { EmptyRing(seq(QUEUE_CAP, _ => ZERO_DESC)) }

  function Idle(pc: WorkerPc): Worker { Worker(pc, [], false, false, [], 0, []) }

  ghost function ColdView(p: Spot): View {
    View(Idle(p.pc), Snapshot(p.stamp, 0, 0), ColdRing().(consumer := p.consumer), EmptyFifo())
  }

  /** The table when workers 0 and 1 last stamped as given and the others never did. */
  function Rows(stamp0: int, stamp1: int): seq<Snapshot> {
    [Snapshot(stamp0, 0, 0), Snapshot(stamp1, 0, 0), ZERO_ROW, ZERO_ROW]
  }

  /** Four idle workers over empty rings, worker 0 as given, worker 1 at p, the others not begun. */
  ghost function ColdAt(clock: int, stamp0: int, pc0: WorkerPc, p: Spot, msel: U64): State {
    State(clock, Rows(stamp0, p.stamp), msel, false, [0, 0, 0, 0],
          [ColdRing(), ColdView(p).ring, ColdRing(), ColdRing()],
          [Idle(pc0), ColdView(p).me, Idle(StampRead), Idle(StampRead)],
          Gen(Pace, 0, 0, [0, 0, 0, 0], 0), [EmptyFifo(), EmptyFifo(), EmptyFifo(), EmptyFifo()], [])
  }

  /** Worker 1's step from p, with worker 0's row as given, leads to p'. */
  ghost predicate Moves(clock: int, stamp0: int, p: Spot, flag: bool, p': Spot) {
    && !p.pc.Publish?
    && StepWorker(COLD, ColdView(p), clock, false, Rows(stamp0, p.stamp), flag) == ColdView(p')
  }

  function Steps1(flags: seq<bool>): seq<Action> {
    if flags == [] then [] else [WorkerStep(1, flags[0])] + Steps1(flags[1..])
  }

  /** Worker 0 reads its clock but is held up before storing the stamp. Worker 1 goes round its
      loop to its next clock reading. A threshold later it starts a pass and reads worker 0's
      still-zero row; then worker 0 stores its stamp, and worker 1 publishes. */
  const COLD_SCHEDULE: seq<Action> :=
    [WorkerStep(0, false)] + (Steps1(LOOP_FLAGS)
    + ([Advance(HANG_THRESHOLD_NS)] + (Steps1(PASS_FLAGS) + ([WorkerStep(0, false)] + [WorkerStep(1, false)]))))

  const LOOP_FLAGS := [false, false, false, false, false, false, false, false, false, true, false, false]
  const PASS_FLAGS := seq(14, _ => false)

  lemma Move(clock: int, stamp0: int, pc0: WorkerPc, p: Spot, flag: bool, p': Spot)
    requires Moves(clock, stamp0, p, flag, p')
    ensures Step(COLD, ColdAt(clock, stamp0, pc0, p, 0), WorkerStep(1, flag)) == ColdAt(clock, stamp0, pc0, p', 0)
  {
    hide StepWorker;
    var s := ColdAt(clock, stamp0, pc0, p, 0);
    assert ViewOf(s, 1) == ColdView(p);
    PublishedOtherwise(COLD, s, 1);
  }

  lemma {:induction false} RunMoves(clock: int, stamp0: int, pc0: WorkerPc, ps: seq<Spot>, flags: seq<bool>)
    requires |ps| == |flags| + 1
    requires forall i :: 0 <= i < |flags| ==> Moves(clock, stamp0, ps[i], flags[i], ps[i + 1])
    ensures Run(COLD, ColdAt(clock, stamp0, pc0, ps[0], 0), Steps1(flags)) == ColdAt(clock, stamp0, pc0, ps[|flags|], 0)
    decreases |flags|
  {
    hide Step, Moves, ColdAt;
    if flags != [] {
      Move(clock, stamp0, pc0, ps[0], flags[0], ps[1]);
      forall i | 0 <= i < |flags[1..]| ensures Moves(clock, stamp0, ps[1..][i], flags[1..][i], ps[1..][i + 1]) {
        assert Moves(clock, stamp0, ps[i + 1], flags[i + 1], ps[i + 1 + 1]);
      }
      RunMoves(clock, stamp0, pc0, ps[1..], flags[1..]);
      var s := ColdAt(clock, stamp0, pc0, ps[0], 0);
      var acts := Steps1(flags);
      assert acts[0] == WorkerStep(1, flags[0]) && acts[1..] == Steps1(flags[1..]);
      assert Run(COLD, s, acts) == Run(COLD, Step(COLD, s, acts[0]), acts[1..]);
    }
  }

  ghost function LoopSpots(): seq<Spot> {
    [Spot(0, StampRead, ConsumerIdle), Spot(0, StampStore(1), ConsumerIdle), Spot(1, HangCheck, ConsumerIdle),
     Spot(1, ExpiryRead, ConsumerIdle), Spot(1, Expire(1, 0), ConsumerIdle), Spot(1, BurstCheck, ConsumerIdle),
     Spot(1, Branch, ConsumerIdle), Spot(1, Poll([]), ConsumerIdle), Spot(1, Poll([]), HeadLoaded(0)),
     Spot(1, PollCheck([]), ConsumerIdle), Spot(1, BatchCount([]), ConsumerIdle),
     Spot(1, AcceptNext([]), ConsumerIdle), Spot(1, PassRead, ConsumerIdle)]
  }

  lemma LoopMoves(stamp0: int, i: nat)
    requires i < 12
    ensures Moves(1, stamp0, LoopSpots()[i], LOOP_FLAGS[i], LoopSpots()[i + 1])
  {
    hide Moves;
    if i < 4 { LoopMovesEarly(stamp0, i); } else if i < 8 { LoopMovesMiddle(stamp0, i); } else { LoopMovesLate(stamp0, i); }
  }

  lemma LoopMovesEarly(stamp0: int, i: nat)
    requires i < 4
    ensures Moves(1, stamp0, LoopSpots()[i], LOOP_FLAGS[i], LoopSpots()[i + 1])
  {
    match i
    case 0 => assert Moves(1, stamp0, LoopSpots()[0], LOOP_FLAGS[0], LoopSpots()[1]);
    case 1 => assert Moves(1, stamp0, LoopSpots()[1], LOOP_FLAGS[1], LoopSpots()[2]);
    case 2 => assert Moves(1, stamp0, LoopSpots()[2], LOOP_FLAGS[2], LoopSpots()[3]);
    case _ => assert Moves(1, stamp0, LoopSpots()[3], LOOP_FLAGS[3], LoopSpots()[4]);
  }

  lemma LoopMovesMiddle(stamp0: int, i: nat)
    requires 4 <= i < 8
    ensures Moves(1, stamp0, LoopSpots()[i], LOOP_FLAGS[i], LoopSpots()[i + 1])
  {
    match i
    case 4 => assert Moves(1, stamp0, LoopSpots()[4], LOOP_FLAGS[4], LoopSpots()[5]);
    case 5 => assert Moves(1, stamp0, LoopSpots()[5], LOOP_FLAGS[5], LoopSpots()[6]);
    case 6 => assert Moves(1, stamp0, LoopSpots()[6], LOOP_FLAGS[6], LoopSpots()[7]);
    case _ => assert Moves(1, stamp0, LoopSpots()[7], LOOP_FLAGS[7], LoopSpots()[8]);
  }

  lemma LoopMovesLate(stamp0: int, i: nat)
    requires 8 <= i < 12
    ensures Moves(1, stamp0, LoopSpots()[i], LOOP_FLAGS[i], LoopSpots()[i + 1])
  {
    match i
    case 8 => assert Moves(1, stamp0, LoopSpots()[8], LOOP_FLAGS[8], LoopSpots()[9]);
    case 9 => assert Moves(1, stamp0, LoopSpots()[9], LOOP_FLAGS[9], LoopSpots()[10]);
    case 10 => assert Moves(1, stamp0, LoopSpots()[10], LOOP_FLAGS[10], LoopSpots()[11]);
    case _ => assert Moves(1, stamp0, LoopSpots()[11], LOOP_FLAGS[11], LoopSpots()[12]);
  }

  const LATE := 1 + HANG_THRESHOLD_NS

  /** Where worker 1 is i steps after it comes to its pass: three reads a row, then the publish. */
  ghost function PassSpot(stamp0: int, i: nat): Spot
    requires i <= 14
  {
    var rows := Rows(stamp0, 1);
    var pc :=
      if i == 0 then PassRead
      else if i == 14 then Publish(LATE, rows)
      else
        var r := (i - 1) / 3;
        if i % 3 == 1 then SnapStamp(LATE, rows[..r])
        else if i % 3 == 2 then SnapPending(LATE, rows[..r], rows[r].stamp)
        else SnapConns(LATE, rows[..r], rows[r].stamp, 0);
    Spot(1, pc, ConsumerIdle)
  }

  ghost function PassSpots(stamp0: int): seq<Spot> {
    seq(15, i requires 0 <= i < 15 => PassSpot(stamp0, i))
  }

  lemma PassMoves(stamp0: int, i: nat)
    requires i < 14
    ensures Moves(LATE, stamp0, PassSpot(stamp0, i), false, PassSpot(stamp0, i + 1))
  {
    hide StepBranch, StepBurst, StepPoll, StepAccept, StepExit;
    var rows := Rows(stamp0, 1);
    if i % 3 == 0 && 0 < i {
      var r := (i - 1) / 3;
      assert rows[..r] + [Snapshot(rows[r].stamp, 0, 0)] == rows[..r + 1];
    } else if i == 13 {
      assert rows[..4] == rows;
    }
  }

  /** Why "no pass holds the cold stamp" cannot be dropped: after this run worker 0's stamp is a
      full threshold old, a pass timed at stamp + threshold has just published, no pass is
      unfinished, and yet worker 0's bit is set. */
  lemma ColdReadDefeatsEviction()
    ensures ValidConfig(COLD)
    ensures var s := Run(COLD, Init(COLD, 1), COLD_SCHEDULE);
            && |s.table| == 4 && s.table[0].stamp == 1 && s.clock == 1 + COLD.threshold
            && (forall v :: 0 <= v < |s.workers| ==> !InPass(s.workers[v].pc))
            && Bit(s.msel, 0)
  {
    hide Step, Run, Moves, Bit;
    var s0 := ColdAt(1, 0, StampRead, LoopSpots()[0], 0);
    var s1 := ColdAt(1, 0, StampStore(1), LoopSpots()[0], 0);
    var s2 := ColdAt(1, 0, StampStore(1), LoopSpots()[12], 0);
    var s3 := ColdAt(LATE, 0, StampStore(1), PassSpots(0)[0], 0);
    var s4 := ColdAt(LATE, 0, StampStore(1), PassSpots(0)[14], 0);
    var s5 := ColdAt(LATE, 1, HangCheck, PassSpots(0)[14], 0);
    ColdInit();
    forall i | 0 <= i < 12 ensures Moves(1, 0, LoopSpots()[i], LOOP_FLAGS[i], LoopSpots()[i + 1]) { LoopMoves(0, i); }
    forall i | 0 <= i < 14 ensures Moves(LATE, 0, PassSpots(0)[i], PASS_FLAGS[i], PassSpots(0)[i + 1]) { PassMoves(0, i); }
    RunMoves(1, 0, StampStore(1), LoopSpots(), LOOP_FLAGS);
    RunMoves(LATE, 0, StampStore(1), PassSpots(0), PASS_FLAGS);
    ColdOthers();
    RunOnce(COLD, s0, WorkerStep(0, false));
    RunOnce(COLD, s2, Advance(HANG_THRESHOLD_NS));
    RunOnce(COLD, s4, WorkerStep(0, false));
    RunOnce(COLD, s5, WorkerStep(1, false));
    var tail4 := [WorkerStep(0, false)] + [WorkerStep(1, false)];
    var tail3 := Steps1(PASS_FLAGS) + tail4;
    var tail2 := [Advance(HANG_THRESHOLD_NS)] + tail3;
    var tail1 := Steps1(LOOP_FLAGS) + tail2;
    RunConcat(COLD, s0, [WorkerStep(0, false)], tail1);
    RunConcat(COLD, s1, Steps1(LOOP_FLAGS), tail2);
    RunConcat(COLD, s2, [Advance(HANG_THRESHOLD_NS)], tail3);
    RunConcat(COLD, s3, Steps1(PASS_FLAGS), tail4);
    RunConcat(COLD, s4, [WorkerStep(0, false)], [WorkerStep(1, false)]);
    ColdPublish();
  }

  /** The held-up pass publishes worker 0's bit. */
  lemma ColdPublish()
    ensures var s := Step(COLD, ColdAt(LATE, 1, HangCheck, PassSpots(0)[14], 0), WorkerStep(1, false));
            && |s.table| == 4 && s.table[0].stamp == 1 && s.clock == 1 + COLD.threshold
            && (forall v :: 0 <= v < |s.workers| ==> !InPass(s.workers[v].pc))
            && Bit(s.msel, 0)
  {
    hide Schedule, Bit;
    ColdPassKeepsWorker0();
  }

  lemma {:induction false} SumOfZeros(c: seq<nat>, m: seq<int>)
    requires forall j :: 0 <= j < |c| ==> c[j] < |m|
    requires forall i :: 0 <= i < |m| ==> m[i] == 0
    ensures Sum(c, m) == 0
  {
    if c != [] { SumOfZeros(c[1..], m); }
  }

  /** Without load the filters drop nobody: the map is exactly stage 1. */
  lemma UnloadedKeepsLive(snaps: seq<Snapshot>, now: int, threshold: int, w: nat)
    requires w < |snaps| && Alive(snaps[w], now, threshold)
    requires forall i :: 0 <= i < |snaps| ==> snaps[i].conns == 0 && snaps[i].pending == 0
    ensures Bit(Schedule(snaps, now, threshold).bitmap, w)
  {
    hide Schedule, Bit, FilterBelowBaseline;
    SetBitIff(snaps, now, threshold, w);
    var live, lighter := Stage1(snaps, now, threshold), Stage2(snaps, now, threshold);
    assert w in live;
    FilterNeverEmpties(live, Conns(snaps));
    SumOfZeros(live, Conns(snaps));
    SumOfZeros(lighter, Pendings(snaps));
  }

  /** The pass read worker 0's row while it was still zero. */
  lemma ColdPassKeepsWorker0()
    ensures Bit(Schedule(Rows(0, 1), LATE, HANG_THRESHOLD_NS).bitmap % TWO_TO_THE_64, 0)
  {
    hide Schedule, Bit, Stage1, Stage2, Stage3;
    var got := Rows(0, 1);
    ScheduleBitmap(got, LATE, HANG_THRESHOLD_NS);
    FitsWord(Schedule(got, LATE, HANG_THRESHOLD_NS).bitmap, 4);
    UnloadedKeepsLive(got, LATE, HANG_THRESHOLD_NS, 0);
  }

  lemma ColdInit()
    ensures ValidConfig(COLD)
    ensures Init(COLD, 1) == ColdAt(1, 0, StampRead, LoopSpots()[0], 0)
  {
    var s, s' := Init(COLD, 1), ColdAt(1, 0, StampRead, LoopSpots()[0], 0);
    assert s.rings == s'.rings;
    assert s.workers == s'.workers;
    assert s.table == s'.table;
    assert s.fifos == s'.fifos;
    assert s.drops == s'.drops && s.gen == s'.gen;
  }

  /** The four steps of that run not taken inside worker 1's loop. */
  lemma ColdOthers()
    ensures && Step(COLD, ColdAt(1, 0, StampRead, LoopSpots()[0], 0), WorkerStep(0, false))
               == ColdAt(1, 0, StampStore(1), LoopSpots()[0], 0)
            && Step(COLD, ColdAt(1, 0, StampStore(1), LoopSpots()[12], 0), Advance(HANG_THRESHOLD_NS))
               == ColdAt(LATE, 0, StampStore(1), PassSpots(0)[0], 0)
            && Step(COLD, ColdAt(LATE, 0, StampStore(1), PassSpots(0)[14], 0), WorkerStep(0, false))
               == ColdAt(LATE, 1, HangCheck, PassSpots(0)[14], 0)
  {
  }

  /** The same run, but worker 0 stores its stamp before worker 1 reads its row. */
  const WARM_SCHEDULE: seq<Action> :=
    [WorkerStep(0, false)] + ([WorkerStep(0, false)] + (Steps1(LOOP_FLAGS)
    + ([Advance(HANG_THRESHOLD_NS)] + Steps1(PASS_FLAGS))))

  /** It leads to a pass about to publish that meets all the conditions of HungWorkerStaysOut, so
      that worker 0 is evicted: the two runs differ only in when the first stamp is stored. */
  lemma WarmReadEvicts()
    ensures ValidConfig(COLD)
    ensures var s := Run(COLD, Init(COLD, 1), WARM_SCHEDULE);
            && InShape(COLD, s) && s.table[0].stamp == 1 && s.workers[1].pc.Publish?
            && AllPassesLate(s, 0, 1 + COLD.threshold)
            && !Bit(Step(COLD, s, WorkerStep(1, false)).msel, 0)
  {
    hide Step, Run, Moves, Bit, AllPassesLate, Inv;
    var s0 := ColdAt(1, 0, StampRead, LoopSpots()[0], 0);
    var s1 := ColdAt(1, 0, StampStore(1), LoopSpots()[0], 0);
    var s2 := ColdAt(1, 1, HangCheck, LoopSpots()[0], 0);
    var s3 := ColdAt(1, 1, HangCheck, LoopSpots()[12], 0);
    var s4 := ColdAt(LATE, 1, HangCheck, PassSpots(1)[0], 0);
    var s5 := ColdAt(LATE, 1, HangCheck, PassSpots(1)[14], 0);
    ColdInit();
    forall i | 0 <= i < 12 ensures Moves(1, 1, LoopSpots()[i], LOOP_FLAGS[i], LoopSpots()[i + 1]) { LoopMoves(1, i); }
    forall i | 0 <= i < 14 ensures Moves(LATE, 1, PassSpots(1)[i], PASS_FLAGS[i], PassSpots(1)[i + 1]) { PassMoves(1, i); }
    RunMoves(1, 1, HangCheck, LoopSpots(), LOOP_FLAGS);
    RunMoves(LATE, 1, HangCheck, PassSpots(1), PASS_FLAGS);
    WarmOthers();
    RunOnce(COLD, s0, WorkerStep(0, false));
    RunOnce(COLD, s1, WorkerStep(0, false));
    RunOnce(COLD, s3, Advance(HANG_THRESHOLD_NS));
    var tail3 := [Advance(HANG_THRESHOLD_NS)] + Steps1(PASS_FLAGS);
    var tail2 := Steps1(LOOP_FLAGS) + tail3;
    var tail1 := [WorkerStep(0, false)] + tail2;
    RunConcat(COLD, s0, [WorkerStep(0, false)], tail1);
    RunConcat(COLD, s1, [WorkerStep(0, false)], tail2);
    RunConcat(COLD, s2, Steps1(LOOP_FLAGS), tail3);
    RunConcat(COLD, s3, [Advance(HANG_THRESHOLD_NS)], Steps1(PASS_FLAGS));
    WarmConditions();
    ReachableInv(COLD, 1, WARM_SCHEDULE);
    PublishEvicts(COLD, s5, 1, false, 0);
    EvictedBit(COLD, Step(COLD, s5, WorkerStep(1, false)), 0, 1);
  }

  lemma EvictedBit(c: Config, s: State, w: nat, t: int)
    requires Evicted(c, s, w, t)
    ensures !Bit(s.msel, w)
  {
  }

  lemma WarmConditions()
    ensures var s := ColdAt(LATE, 1, HangCheck, PassSpots(1)[14], 0);
            && InShape(COLD, s) && s.table[0].stamp == 1 && s.workers[1].pc.Publish?
            && AllPassesLate(s, 0, 1 + COLD.threshold)
  {
  }

  lemma WarmOthers()
    ensures && Step(COLD, ColdAt(1, 0, StampRead, LoopSpots()[0], 0), WorkerStep(0, false))
               == ColdAt(1, 0, StampStore(1), LoopSpots()[0], 0)
            && Step(COLD, ColdAt(1, 0, StampStore(1), LoopSpots()[0], 0), WorkerStep(0, false))
               == ColdAt(1, 1, HangCheck, LoopSpots()[0], 0)
            && Step(COLD, ColdAt(1, 1, HangCheck, LoopSpots()[12], 0), Advance(HANG_THRESHOLD_NS))
               == ColdAt(LATE, 1, HangCheck, PassSpots(1)[0], 0)
  {
  }
}
