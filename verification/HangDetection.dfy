/** Hang detection works in the end: a worker that stops stamping is out of M_Sel for good from some
    point on, as long as one other worker keeps going round its loop (userspace_simulation/src/worker.rs
    and scheduler.rs). Every unfinished pass either finishes, or is never taken up again; from then on
    every pass that publishes is late enough to see the worker's stamp as stale. */
module HangDetection {
  import opened Words
  import opened SpscRing
  import opened Scheduler
  import opened Simulation
  import opened WorkerInvariant
  import opened SystemInvariant
  import opened Guarantees
  import opened Eviction
  import opened Termination

  // ---- how far a worker is from its next scheduler pass ----

  /** In the poll, with nothing found yet. */
  predicate Waiting(pc: WorkerPc) {
    (pc.Poll? || pc.PollCheck?) && pc.batch == []
  }

  const POLL_TOP := 80

  /** Steps to the clock reading of the next pass; while waiting in the poll, a bound on the rest. */
  function Ahead(W: nat, me: Worker, consumer: Consumer<ConnDesc>): nat {
    var open := |me.open|;
    match me.pc
    case SnapStamp(_, got) => open + 3 * Left(W, |got|) + 92
    case SnapPending(_, got, _) => open + 3 * Left(W, |got|) + 91
    case SnapConns(_, got, _, _) => open + 3 * Left(W, |got|) + 90
    case Publish(_, _) => open + 89
    case ExitFlag => open + 88
    case StampRead => open + 87
    case StampStore(_) => open + 86
    case HangCheck => open + 85
    case ExpiryRead => open + 84
    case Expire(_, i) => Left(open, i) + 83
    case BurstCheck => 82
    case Branch => 81
    case Poll(batch) =>
      if batch == [] then POLL_TOP else 28 + 10 * Left(MAX_EVENTS, |batch|) + PopRank(consumer)
    case PollCheck(batch) => if batch == [] then POLL_TOP else 5 * |batch| + 7
    case BatchCount(batch) => 5 * |batch| + 6
    case AcceptNext(batch) => 5 * |batch| + 5
    case AcceptRead(batch) => 5 * |batch| + 4
    case AcceptServe(batch, _) => 5 * |batch| + 3
    case AcceptDone(batch, _, _) => 5 * |batch| + 2
    case BurstNext(ids) => 3 * |ids| + 3
    case BurstServe(ids, _) => 3 * |ids| + 2
    case BurstDone(ids, _, _) => 3 * |ids| + 1
    case PassRead => 0
    case ExitLen => 0
    case Exited => 0
  }

  function Hang(me: Worker): nat { if me.hangPending then 1 else 0 }

  /** The first worker has its hang behind it, or is closer to its next pass. */
  predicate Nearer(W: nat, v': View, v: View) {
    || Hang(v'.me) < Hang(v.me)
    || (Hang(v'.me) == Hang(v.me) && Ahead(W, v'.me, v'.ring.consumer) < Ahead(W, v.me, v.ring.consumer))
  }

  lemma LoopNearer(c: Config, v: View, clock: int, table: seq<Snapshot>, flag: bool)
    requires WorkerOk(c, v, clock) && AtLoop(v.me.pc) && !v.me.pc.Exited? && !v.me.pc.PassRead? && !Waiting(v.me.pc)
    ensures Nearer(c.W, StepWorker(c, v, clock, false, table, flag), v)
  {
    hide StepBranch, StepBurst, StepPoll, StepAccept, StepSnap, StepExit, LogExact, Timely;
  }

  lemma ExpireNearer(c: Config, v: View, clock: int, table: seq<Snapshot>, flag: bool)
    requires WorkerOk(c, v, clock) && v.me.pc.Expire?
    ensures Nearer(c.W, StepWorker(c, v, clock, false, table, flag), v)
  {
    hide StepBranch, StepBurst, StepPoll, StepAccept, StepSnap, StepExit, LogExact, Timely;
  }

  lemma BranchNearer(c: Config, v: View, clock: int)
    requires WorkerOk(c, v, clock) && v.me.pc.Branch?
    ensures Nearer(c.W, StepBranch(v), v)
  {
    hide LogExact, Timely;
  }

  lemma BurstNearer(c: Config, v: View, clock: int)
    requires WorkerOk(c, v, clock) && InBurst(v.me.pc)
    ensures Nearer(c.W, StepBurst(c, v, clock), v)
  {
    hide LogExact, Timely;
  }

  lemma AcceptNearer(c: Config, v: View, clock: int)
    requires WorkerOk(c, v, clock) && InAccept(v.me.pc)
    ensures Nearer(c.W, StepAccept(v, clock), v)
  {
    hide LogExact, Timely;
  }

  lemma SnapNearer(c: Config, v: View, clock: int, table: seq<Snapshot>)
    requires WorkerOk(c, v, clock) && InSnap(v.me.pc) && PassOk(v.me.pc, clock, table) && |table| == c.W
    ensures Nearer(c.W, v.(me := v.me.(pc := StepSnap(v.me.pc, table))), v)
  {
    hide LogExact, Timely;
  }

  lemma PollNearer(c: Config, v: View, clock: int)
    requires Stands(v.ring, v.fifo) && WorkerOk(c, v, clock) && v.me.pc.Poll? && !Waiting(v.me.pc)
    ensures Nearer(c.W, StepPoll(v), v)
  {
    hide LogExact, Timely, Touch, Stands;
    PopTouch(v.ring, v.fifo);
    PopAdvances(v.ring, v.fifo);
  }

  /** Before shutdown each step outside the wait brings a worker nearer to its next pass. */
  lemma StepNearer(c: Config, v: View, clock: int, table: seq<Snapshot>, flag: bool)
    requires Stands(v.ring, v.fifo) && WorkerOk(c, v, clock) && LeavesDrained(v.me, v.ring, v.fifo, false)
    requires PassOk(v.me.pc, clock, table) && |table| == c.W && !v.me.pc.PassRead? && !Waiting(v.me.pc)
    ensures Nearer(c.W, StepWorker(c, v, clock, false, table, flag), v)
  {
    hide WorkerOk, PassOk, Nearer, StepBranch, StepBurst, StepPoll, StepAccept, StepSnap, StepExit;
    var pc := v.me.pc;
    if AtLoop(pc) {
      LoopNearer(c, v, clock, table, flag);
    } else if pc.Expire? {
      ExpireNearer(c, v, clock, table, flag);
    } else if pc.Branch? {
      BranchNearer(c, v, clock);
    } else if InBurst(pc) {
      BurstNearer(c, v, clock);
    } else if InAccept(pc) {
      AcceptNearer(c, v, clock);
    } else if InSnap(pc) {
      SnapNearer(c, v, clock, table);
    } else {
      PollNearer(c, v, clock);
    }
  }

  /** Accesses left before an empty look is over; then the timer is consulted. */
  function WaitRank(pc: WorkerPc, consumer: Consumer<ConnDesc>): nat {
    if pc.Poll? then 1 + PopRank(consumer) else 0
  }

  /** A step of the wait either stays in it or comes out near a pass; with the timer run out it
      cannot stay for long. */
  lemma WaitStep(c: Config, v: View, clock: int, table: seq<Snapshot>, flag: bool)
    requires Stands(v.ring, v.fifo) && WorkerOk(c, v, clock) && Waiting(v.me.pc)
    ensures var v' := StepWorker(c, v, clock, false, table, flag);
            && Hang(v'.me) == Hang(v.me)
            && (Waiting(v'.me.pc) || Ahead(c.W, v'.me, v'.ring.consumer) < POLL_TOP)
            && (flag && Waiting(v'.me.pc) ==> WaitRank(v'.me.pc, v'.ring.consumer) < WaitRank(v.me.pc, v.ring.consumer))
  {
    hide LogExact, Timely, Touch, Stands, StepBranch, StepBurst, StepAccept, StepSnap, StepExit;
    if v.me.pc.Poll? {
      PopTouch(v.ring, v.fifo);
      PopAdvances(v.ring, v.fifo);
    }
  }

  // ---- one worker's part of an infinite schedule ----

  /** What a worker's progress depends on, and nobody else changes. */
  lemma OthersKeepMe(c: Config, s: State, a: Action, v: nat)
    requires Inv(c, s) && v < c.W && !WorkerActs(a, v)
    ensures var s' := Step(c, s, a);
            InShape(c, s') && s'.workers[v] == s.workers[v] && s'.rings[v].consumer == s.rings[v].consumer
  {
    hide StepWorker, StepGen, Published, Stands, WorkerOk, PassOk;
    StepKeepsInv(c, s, a);
    if a.GenStep? {
      GenLeavesTable(c, s, a.service);
      GenKeepsConsumers(c, s, a.service, v);
    }
  }

  lemma GenKeepsConsumers(c: Config, s: State, service: nat, v: nat)
    requires Inv(c, s) && v < c.W
    ensures var s' := StepGen(c, s, service); |s'.rings| == c.W && s'.rings[v].consumer == s.rings[v].consumer
  {
    hide Stands, WorkersOk, AccountsOk, PassesOk, DrainOk, ExamOk, Touch, Better, GenHash, PickHermes, PickReuseport;
    if s.gen.pc.Push? {
      RingStands(c, s, s.gen.pc.target);
      PushTouch(s.rings[s.gen.pc.target], s.fifos[s.gen.pc.target], s.gen.pc.desc);
    } else if s.gen.pc.LifoIdle? || s.gen.pc.LifoLen? {
      var i := if s.gen.pc.LifoIdle? then s.gen.pc.i else |s.gen.pc.lens|;
      RingStands(c, s, i);
      LenTouch(s.rings[i], s.fifos[i]);
    }
  }

  lemma {:induction false} MeWaits(c: Config, s: State, schedule: nat -> Action, n: nat, m: nat, v: nat)
    requires c.W > 0 && Inv(c, s) && n <= m && v < c.W
    requires forall k :: n <= k < m ==> !WorkerActs(schedule(k), v)
    ensures var s0, s1 := At(c, s, schedule, n), At(c, s, schedule, m);
            && InShape(c, s0) && InShape(c, s1)
            && s1.workers[v] == s0.workers[v] && s1.rings[v].consumer == s0.rings[v].consumer
    decreases m - n
  {
    hide Inv, Step;
    AtKeepsInv(c, s, schedule, n);
    InvShape(c, At(c, s, schedule, n));
    if n < m {
      MeWaits(c, s, schedule, n, m - 1, v);
      AtKeepsInv(c, s, schedule, m - 1);
      OthersKeepMe(c, At(c, s, schedule, m - 1), schedule(m - 1), v);
    }
  }

  /** v's own step, seen on its view. */
  lemma OwnStep(c: Config, s: State, a: Action, v: nat)
    requires Inv(c, s) && v < c.W && WorkerActs(a, v) && !s.shutdown
    ensures InShape(c, Step(c, s, a))
    ensures var view, view' := ViewOf(s, v), ViewOf(Step(c, s, a), v);
            && view' == StepWorker(c, view, s.clock, false, s.table, a.flag)
            && (!view.me.pc.PassRead? && !Waiting(view.me.pc) ==> Nearer(c.W, view', view))
            && (Waiting(view.me.pc) ==>
                  && Hang(view'.me) == Hang(view.me)
                  && (Waiting(view'.me.pc) || Ahead(c.W, view'.me, view'.ring.consumer) < POLL_TOP)
                  && (a.flag && Waiting(view'.me.pc) ==>
                        WaitRank(view'.me.pc, view'.ring.consumer) < WaitRank(view.me.pc, view.ring.consumer)))
  {
    hide StepWorker, Published, Nearer, WorkerOk, Stands, LeavesDrained, PassOk, Ahead, WaitRank, Waiting;
    var view := ViewOf(s, v);
    assert WorkerOk(c, view, s.clock) && Stands(view.ring, view.fifo);
    assert LeavesDrained(view.me, view.ring, view.fifo, s.shutdown);
    assert PassOk(view.me.pc, s.clock, s.table);
    if Waiting(view.me.pc) {
      WaitStep(c, view, s.clock, s.table, a.flag);
    } else if !view.me.pc.PassRead? {
      StepNearer(c, view, s.clock, s.table, a.flag);
    }
  }

  /** v is scheduled again and again, and no poll of v waits for ever. */
  ghost predicate KeepsGoing(c: Config, s: State, schedule: nat -> Action, v: nat)
    requires c.W > 0
  {
    && (forall n: nat :: WorkerActsFrom(schedule, n, v))
    && (forall n: nat :: PollReturns(c, s, schedule, n, v))
  }

  ghost predicate PollReturns(c: Config, s: State, schedule: nat -> Action, n: nat, v: nat)
    requires c.W > 0
  {
    exists m: nat :: m >= n && Working(c, s, schedule, m, v)
  }

  ghost predicate Working(c: Config, s: State, schedule: nat -> Action, m: nat, v: nat)
    requires c.W > 0
  {
    v < |At(c, s, schedule, m).workers| && !Waiting(At(c, s, schedule, m).workers[v].pc)
  }

  lemma NextTurn(c: Config, s: State, schedule: nat -> Action, n: nat, v: nat) returns (m: nat)
    requires WorkerActsFrom(schedule, n, v) && c.W > 0 && Inv(c, s) && v < c.W
    ensures m >= n && WorkerActs(schedule(m), v)
    ensures var s0, s1 := At(c, s, schedule, n), At(c, s, schedule, m);
            && InShape(c, s0) && InShape(c, s1)
            && s1.workers[v] == s0.workers[v] && s1.rings[v].consumer == s0.rings[v].consumer
  {
    hide Inv, At;
    var last: nat :| last >= n && WorkerActs(schedule(last), v);
    m := FirstWorkerTurn(schedule, n, last, v);
    MeWaits(c, s, schedule, n, m, v);
  }

  /** From a waiting position to the first working one, at most `last`: it comes out near a pass. */
  lemma {:induction false} WaitEnds(c: Config, s: State, schedule: nat -> Action, n: nat, last: nat, v: nat)
    returns (m: nat)
    requires c.W > 0 && Inv(c, s) && v < c.W && n <= last && Working(c, s, schedule, last, v)
    requires forall k: nat :: !At(c, s, schedule, k).shutdown
    requires InShape(c, At(c, s, schedule, n)) && Waiting(At(c, s, schedule, n).workers[v].pc)
    ensures m >= n && InShape(c, At(c, s, schedule, m))
    ensures var s0, s1 := At(c, s, schedule, n), At(c, s, schedule, m);
            Hang(s1.workers[v]) == Hang(s0.workers[v]) && Ahead(c.W, s1.workers[v], s1.rings[v].consumer) < POLL_TOP
    decreases last - n
  {
    hide Inv, Step, Ahead, StepWorker;
    AtKeepsInv(c, s, schedule, n);
    var s0, a := At(c, s, schedule, n), schedule(n);
    assert n < last;
    assert At(c, s, schedule, n + 1) == Step(c, s0, a);
    if WorkerActs(a, v) {
      OwnStep(c, s0, a, v);
    } else {
      OthersKeepMe(c, s0, a, v);
    }
    if Waiting(At(c, s, schedule, n + 1).workers[v].pc) {
      m := WaitEnds(c, s, schedule, n + 1, last, v);
    } else {
      m := n + 1;
    }
  }

  /** A worker that keeps going comes to a scheduler pass again and again. */
  lemma {:induction false} ReachesPass(c: Config, s: State, schedule: nat -> Action, n: nat, v: nat, hang: nat, ahead: nat)
    returns (m: nat)
    requires c.W > 0 && Inv(c, s) && v < c.W && KeepsGoing(c, s, schedule, v)
    requires forall k: nat :: !At(c, s, schedule, k).shutdown
    requires InShape(c, At(c, s, schedule, n))
    requires var s0 := At(c, s, schedule, n);
             hang == Hang(s0.workers[v]) && ahead == Ahead(c.W, s0.workers[v], s0.rings[v].consumer)
    ensures m >= n && InShape(c, At(c, s, schedule, m)) && At(c, s, schedule, m).workers[v].pc.PassRead?
    decreases hang, ahead
  {
    hide Inv, Step, StepWorker, At;
    var s0 := At(c, s, schedule, n);
    if s0.workers[v].pc.PassRead? {
      m := n;
    } else {
      var k: nat;
      if Waiting(s0.workers[v].pc) {
        assert PollReturns(c, s, schedule, n, v);
        var last: nat :| last >= n && Working(c, s, schedule, last, v);
        k := WaitEnds(c, s, schedule, n, last, v);
      } else {
        assert WorkerActsFrom(schedule, n, v);
        var turn := NextTurn(c, s, schedule, n, v);
        AtKeepsInv(c, s, schedule, turn);
        NextAt(c, s, schedule, turn);
        OwnStep(c, At(c, s, schedule, turn), schedule(turn), v);
        k := turn + 1;
      }
      var s1 := At(c, s, schedule, k);
      m := ReachesPass(c, s, schedule, k, v, Hang(s1.workers[v]), Ahead(c.W, s1.workers[v], s1.rings[v].consumer));
    }
  }

  lemma NextAt(c: Config, s: State, schedule: nat -> Action, n: nat)
    requires c.W > 0
    ensures At(c, s, schedule, n + 1) == Step(c, At(c, s, schedule, n), schedule(n))
  {
    hide Step;
  }

  // ---- finishing a pass ----

  function PassLeft(W: nat, pc: WorkerPc): nat {
    match pc
    case SnapStamp(_, got) => 3 * Left(W, |got|) + 3
    case SnapPending(_, got, _) => 3 * Left(W, |got|) + 2
    case SnapConns(_, got, _, _) => 3 * Left(W, |got|) + 1
    case _ => 0
  }

  /** A step inside a pass moves it on, or ends it at its publish. */
  lemma PassStep(c: Config, v: View, clock: int, shutdown: bool, table: seq<Snapshot>, flag: bool)
    requires InPass(v.me.pc) && PassOk(v.me.pc, clock, table) && |table| == c.W
    ensures var pc' := StepWorker(c, v, clock, shutdown, table, flag).me.pc;
            if v.me.pc.Publish? then !InPass(pc') else InPass(pc') && PassLeft(c.W, pc') < PassLeft(c.W, v.me.pc)
  {
    hide StepBranch, StepBurst, StepPoll, StepAccept, StepExit;
  }

  lemma OwnPassStep(c: Config, s: State, a: Action, u: nat)
    requires Inv(c, s) && u < c.W && WorkerActs(a, u) && InPass(s.workers[u].pc)
    ensures var pc, s' := s.workers[u].pc, Step(c, s, a);
            && InShape(c, s')
            && if pc.Publish? then !InPass(s'.workers[u].pc)
               else InPass(s'.workers[u].pc) && PassLeft(c.W, s'.workers[u].pc) < PassLeft(c.W, pc)
  {
    hide StepWorker, Published, PassLeft, PassOk, InPass;
    assert PassOk(s.workers[u].pc, s.clock, s.table);
    PassStep(c, ViewOf(s, u), s.clock, s.shutdown, s.table, a.flag);
  }

  /** A worker that is scheduled again and again publishes the pass it is in. */
  lemma {:induction false} PassPublishes(c: Config, s: State, schedule: nat -> Action, n: nat, v: nat, left: nat)
    returns (m: nat)
    requires c.W > 0 && Inv(c, s) && v < c.W && forall k: nat :: WorkerActsFrom(schedule, k, v)
    requires InShape(c, At(c, s, schedule, n)) && InPass(At(c, s, schedule, n).workers[v].pc)
    requires left == PassLeft(c.W, At(c, s, schedule, n).workers[v].pc)
    ensures m >= n && InShape(c, At(c, s, schedule, m)) && At(c, s, schedule, m).workers[v].pc.Publish?
    ensures WorkerActs(schedule(m), v)
    decreases left
  {
    hide Inv, Step, At, PassLeft;
    assert WorkerActsFrom(schedule, n, v);
    var turn := NextTurn(c, s, schedule, n, v);
    var s1 := At(c, s, schedule, turn);
    if s1.workers[v].pc.Publish? {
      m := turn;
    } else {
      AtKeepsInv(c, s, schedule, turn);
      NextAt(c, s, schedule, turn);
      OwnPassStep(c, s1, schedule(turn), v);
      m := PassPublishes(c, s, schedule, turn + 1, v, PassLeft(c.W, At(c, s, schedule, turn + 1).workers[v].pc));
    }
  }

  // ---- time and the stale stamp ----

  ghost predicate TimePasses(c: Config, s: State, schedule: nat -> Action)
    requires c.W > 0
  {
    forall t: int :: ClockReaches(c, s, schedule, t)
  }

  ghost predicate ClockReaches(c: Config, s: State, schedule: nat -> Action, t: int)
    requires c.W > 0
  {
    exists n: nat :: At(c, s, schedule, n).clock >= t
  }

  lemma StepClock(c: Config, s: State, a: Action)
    requires c.W > 0
    ensures Step(c, s, a).clock >= s.clock
  {
    hide StepWorker, Published, GenHash;
    if a.GenStep? { GenLeavesTable(c, s, a.service); }
  }

  lemma {:induction false} ClockMonotone(c: Config, s: State, schedule: nat -> Action, n: nat, m: nat)
    requires c.W > 0 && n <= m
    ensures At(c, s, schedule, n).clock <= At(c, s, schedule, m).clock
    decreases m - n
  {
    hide Step;
    if n < m {
      ClockMonotone(c, s, schedule, n, m - 1);
      StepClock(c, At(c, s, schedule, m - 1), schedule(m - 1));
    }
  }

  lemma StampKept(c: Config, s: State, a: Action, w: nat)
    requires Inv(c, s) && w < c.W && !Stamps(s, a, w)
    ensures InShape(c, Step(c, s, a)) && Step(c, s, a).table[w].stamp == s.table[w].stamp
  {
    hide StepWorker, StepGen, Published, RingsOk, WorkersOk, PassesOk, AccountsOk, ExamOk;
    StepKeepsInv(c, s, a);
    if a.GenStep? {
      GenLeavesTable(c, s, a.service);
    } else if WorkerActs(a, w) {
      OnlyStampStores(c, ViewOf(s, w), s.clock, s.shutdown, s.table, a.flag);
    }
  }

  /** From n on, w never stores a stamp. */
  ghost predicate NoMoreStamps(c: Config, s: State, schedule: nat -> Action, n: nat, w: nat)
    requires c.W > 0
  {
    forall m: nat {:trigger At(c, s, schedule, m)} :: m >= n ==> !Stamps(At(c, s, schedule, m), schedule(m), w)
  }

  lemma {:induction false} StampStays(c: Config, s: State, schedule: nat -> Action, n: nat, m: nat, w: nat)
    requires c.W > 0 && Inv(c, s) && w < c.W && n <= m && NoMoreStamps(c, s, schedule, n, w)
    ensures InShape(c, At(c, s, schedule, n)) && InShape(c, At(c, s, schedule, m))
    ensures At(c, s, schedule, m).table[w].stamp == At(c, s, schedule, n).table[w].stamp
    decreases m - n
  {
    hide Inv, Step, Stamps;
    AtKeepsInv(c, s, schedule, n);
    InvShape(c, At(c, s, schedule, n));
    if n < m {
      StampStays(c, s, schedule, n, m - 1, w);
      AtKeepsInv(c, s, schedule, m - 1);
      StampKept(c, At(c, s, schedule, m - 1), schedule(m - 1), w);
    }
  }

  // ---- every pass that matters becomes late ----

  /** From n on, w's stamp is t and a threshold old. */
  ghost predicate Stale(c: Config, s: State, schedule: nat -> Action, n: nat, w: nat, t: int)
    requires c.W > 0
  {
    forall m: nat :: m >= n ==> StaleAt(c, At(c, s, schedule, m), w, t)
  }

  ghost predicate StaleAt(c: Config, s: State, w: nat, t: int) {
    InShape(c, s) && w < c.W && s.table[w].stamp == t != 0 && s.clock >= t + c.threshold
  }

  ghost predicate Late(c: Config, s: State, u: nat, w: nat, t: int) {
    u < |s.workers| && LatePass(s.workers[u].pc, w, t + c.threshold)
  }

  lemma LateKept(c: Config, s: State, a: Action, u: nat, w: nat, t: int)
    requires Inv(c, s) && StaleAt(c, s, w, t) && u < c.W && Late(c, s, u, w, t)
    ensures Late(c, Step(c, s, a), u, w, t)
  {
    hide StepWorker, Published, LatePass, RingsOk, WorkersOk, PassesOk, AccountsOk, ExamOk;
    if WorkerActs(a, u) {
      PassStaysLate(c, ViewOf(s, u), s.clock, s.shutdown, s.table, a.flag, w, t);
    } else {
      OthersKeepMe(c, s, a, u);
    }
  }

  lemma {:induction false} LateStays(c: Config, s: State, schedule: nat -> Action, n: nat, m: nat, u: nat, w: nat, t: int)
    requires c.W > 0 && Inv(c, s) && n <= m && u < c.W && Stale(c, s, schedule, n, w, t)
    requires Late(c, At(c, s, schedule, n), u, w, t)
    ensures Late(c, At(c, s, schedule, m), u, w, t)
    decreases m - n
  {
    hide Inv, Step, Late, StaleAt;
    if n < m {
      LateStays(c, s, schedule, n, m - 1, u, w, t);
      AtKeepsInv(c, s, schedule, m - 1);
      assert StaleAt(c, At(c, s, schedule, m - 1), w, t);
      LateKept(c, At(c, s, schedule, m - 1), schedule(m - 1), u, w, t);
    }
  }

  /** u's pass, if any, is late at n, or u never acts again. */
  ghost predicate Settled(c: Config, s: State, schedule: nat -> Action, n: nat, u: nat, w: nat, t: int)
    requires c.W > 0
  {
    Late(c, At(c, s, schedule, n), u, w, t) || !WorkerActsFrom(schedule, n, u)
  }

  /** Every worker settles: it finishes an early pass or abandons it. */
  lemma {:induction false} Settles(c: Config, s: State, schedule: nat -> Action, n: nat, u: nat, w: nat, t: int, left: nat)
    returns (m: nat)
    requires c.W > 0 && Inv(c, s) && u < c.W && Stale(c, s, schedule, n, w, t)
    requires u < |At(c, s, schedule, n).workers| && left == PassLeft(c.W, At(c, s, schedule, n).workers[u].pc)
    ensures m >= n && Settled(c, s, schedule, m, u, w, t)
    decreases left
  {
    hide Inv, Step, At, PassLeft, StaleAt;
    if Late(c, At(c, s, schedule, n), u, w, t) || !WorkerActsFrom(schedule, n, u) {
      m := n;
    } else {
      assert InPass(At(c, s, schedule, n).workers[u].pc);
      var turn := NextTurn(c, s, schedule, n, u);
      AtKeepsInv(c, s, schedule, turn);
      NextAt(c, s, schedule, turn);
      OwnPassStep(c, At(c, s, schedule, turn), schedule(turn), u);
      var pc := At(c, s, schedule, turn + 1).workers[u].pc;
      if InPass(pc) {
        m := Settles(c, s, schedule, turn + 1, u, w, t, PassLeft(c.W, pc));
      } else {
        m := turn + 1;
      }
    }
  }

  lemma SettledStays(c: Config, s: State, schedule: nat -> Action, n: nat, m: nat, u: nat, w: nat, t: int)
    requires c.W > 0 && Inv(c, s) && n <= m && u < c.W && Stale(c, s, schedule, n, w, t)
    requires Settled(c, s, schedule, n, u, w, t)
    ensures Settled(c, s, schedule, m, u, w, t)
  {
    hide Inv, At, Late, StaleAt;
    if Late(c, At(c, s, schedule, n), u, w, t) { LateStays(c, s, schedule, n, m, u, w, t); }
  }

  lemma {:induction false} AllSettle(c: Config, s: State, schedule: nat -> Action, n: nat, w: nat, t: int, k: nat)
    returns (m: nat)
    requires c.W > 0 && Inv(c, s) && k <= c.W && Stale(c, s, schedule, n, w, t)
    ensures m >= n && forall u: nat :: u < k ==> Settled(c, s, schedule, m, u, w, t)
    decreases k
  {
    hide Inv, At, Settled, PassLeft;
    m := n;
    if k > 0 {
      var mid := AllSettle(c, s, schedule, n, w, t, k - 1);
      assert StaleAt(c, At(c, s, schedule, mid), w, t);
      m := Settles(c, s, schedule, mid, k - 1, w, t, PassLeft(c.W, At(c, s, schedule, mid).workers[k - 1].pc));
      forall u: nat | u < k - 1 ensures Settled(c, s, schedule, m, u, w, t) {
        SettledStays(c, s, schedule, mid, m, u, w, t);
      }
    }
  }

  // ---- out for good ----

  /** Once all are settled, no action puts w back, and a publish takes it out. */
  lemma BitStaysClear(c: Config, s: State, a: Action, w: nat, t: int)
    requires Inv(c, s) && StaleAt(c, s, w, t)
    requires a.WorkerStep? && a.w < c.W ==> Late(c, s, a.w, w, t)
    ensures !Bit(s.msel, w) || (a.WorkerStep? && a.w < c.W && s.workers[a.w].pc.Publish?) ==> !Bit(Step(c, s, a).msel, w)
  {
    hide StepWorker, Published, LatePass, RingsOk, WorkersOk, PassesOk, AccountsOk, ExamOk, Bit;
    match a
    case Advance(_) =>
    case GenStep(service) => GenLeavesTable(c, s, service);
    case WorkerStep(u, _) =>
      if u < c.W {
        if s.workers[u].pc.Publish? { LatePublishClears(c, s, u, w, t); } else { PublishedOtherwise(c, s, u); }
      }
  }

  /** The step from n, with all settled at `from` <= n. */
  lemma SettledStep(c: Config, s: State, schedule: nat -> Action, from: nat, n: nat, w: nat, t: int)
    requires c.W > 0 && Inv(c, s) && from <= n && Stale(c, s, schedule, from, w, t)
    requires forall u: nat :: u < c.W ==> Settled(c, s, schedule, from, u, w, t)
    ensures var s0, a := At(c, s, schedule, n), schedule(n);
            && InShape(c, s0)
            && (!Bit(s0.msel, w) || (a.WorkerStep? && a.w < c.W && s0.workers[a.w].pc.Publish?)
                ==> !Bit(At(c, s, schedule, n + 1).msel, w))
  {
    hide Inv, Step, Late, Bit, At;
    var s0, a := At(c, s, schedule, n), schedule(n);
    AtKeepsInv(c, s, schedule, n);
    NextAt(c, s, schedule, n);
    assert StaleAt(c, s0, w, t);
    if a.WorkerStep? && a.w < c.W {
      assert WorkerActs(schedule(n), a.w);
      assert Settled(c, s, schedule, from, a.w, w, t);
      LateStays(c, s, schedule, from, n, a.w, w, t);
    }
    BitStaysClear(c, s0, a, w, t);
  }

  lemma {:induction false} OutForGood(c: Config, s: State, schedule: nat -> Action, from: nat, n: nat, m: nat, w: nat, t: int)
    requires c.W > 0 && Inv(c, s) && from <= n <= m && Stale(c, s, schedule, from, w, t)
    requires forall u: nat :: u < c.W ==> Settled(c, s, schedule, from, u, w, t)
    requires !Bit(At(c, s, schedule, n).msel, w)
    ensures !Bit(At(c, s, schedule, m).msel, w)
    decreases m - n
  {
    hide Inv, At, Bit, Settled, Stale;
    if n < m {
      OutForGood(c, s, schedule, from, n, m - 1, w, t);
      SettledStep(c, s, schedule, from, m - 1, w, t);
    }
  }

  lemma BecomesStale(c: Config, s: State, schedule: nat -> Action, n0: nat, w: nat, t: int) returns (n: nat)
    requires c.W > 0 && Inv(c, s) && w < c.W && TimePasses(c, s, schedule) && NoMoreStamps(c, s, schedule, n0, w)
    requires InShape(c, At(c, s, schedule, n0)) && At(c, s, schedule, n0).table[w].stamp == t != 0
    ensures n >= n0 && Stale(c, s, schedule, n, w, t)
  {
    hide Inv, At, NoMoreStamps;
    assert ClockReaches(c, s, schedule, t + c.threshold);
    var k: nat :| At(c, s, schedule, k).clock >= t + c.threshold;
    n := if k > n0 then k else n0;
    forall m: nat | m >= n ensures StaleAt(c, At(c, s, schedule, m), w, t) {
      ClockMonotone(c, s, schedule, k, m);
      StampStays(c, s, schedule, n0, m, w);
    }
  }

  /** A worker that keeps going publishes a pass after any point. */
  lemma PublishesLater(c: Config, s: State, schedule: nat -> Action, n: nat, v: nat) returns (m: nat)
    requires c.W > 0 && Inv(c, s) && c.policy.Hermes? && v < c.W && KeepsGoing(c, s, schedule, v)
    requires forall k: nat :: !At(c, s, schedule, k).shutdown
    ensures m >= n && InShape(c, At(c, s, schedule, m)) && At(c, s, schedule, m).workers[v].pc.Publish?
    ensures WorkerActs(schedule(m), v)
  {
    hide Inv, At, Step, Ahead, PassLeft, StepWorker;
    AtKeepsInv(c, s, schedule, n);
    InvShape(c, At(c, s, schedule, n));
    var s0 := At(c, s, schedule, n);
    var read := ReachesPass(c, s, schedule, n, v, Hang(s0.workers[v]), Ahead(c.W, s0.workers[v], s0.rings[v].consumer));
    assert WorkerActsFrom(schedule, read, v);
    var turn := NextTurn(c, s, schedule, read, v);
    AtKeepsInv(c, s, schedule, turn);
    NextAt(c, s, schedule, turn);
    OwnStep(c, At(c, s, schedule, turn), schedule(turn), v);
    PassBegins(c, ViewOf(At(c, s, schedule, turn), v), At(c, s, schedule, turn), schedule(turn).flag);
    var pc := At(c, s, schedule, turn + 1).workers[v].pc;
    m := PassPublishes(c, s, schedule, turn + 1, v, PassLeft(c.W, pc));
  }

  lemma PassBegins(c: Config, v: View, s: State, flag: bool)
    requires v.me.pc.PassRead? && c.policy.Hermes?
    ensures InPass(StepWorker(c, v, s.clock, false, s.table, flag).me.pc)
  {
  }

  /** The liveness of hang detection. Under the Hermes policy, in any infinite run before shutdown
      in which time passes: if w has stamped and from n0 on never stamps again, and some worker v
      keeps going (which w then does not), then from some point on M_Sel has bit w clear for good, and the dispatcher picks
      w only by falling back to the plain hash. What w is doing when it stops, and what the
      remaining workers do, does not matter. */
  lemma HungWorkerIsEvicted(c: Config, clock: nat, schedule: nat -> Action, n0: nat, w: nat, v: nat) returns (n: nat)
    requires ValidConfig(c) && c.policy.Hermes? && w < c.W && v < c.W
    requires TimePasses(c, Init(c, clock), schedule) && KeepsGoing(c, Init(c, clock), schedule, v)
    requires forall k: nat :: !At(c, Init(c, clock), schedule, k).shutdown
    requires NoMoreStamps(c, Init(c, clock), schedule, n0, w)
    requires InShape(c, At(c, Init(c, clock), schedule, n0)) && At(c, Init(c, clock), schedule, n0).table[w].stamp != 0
    ensures n >= n0 && forall m: nat :: m >= n ==>
              var s := At(c, Init(c, clock), schedule, m);
              !Bit(s.msel, w) && (CountOnes(s.msel) >= 2 ==> PickHermes(c, s) != w)
  {
    hide Inv, Init, At, Step, Bit, Settled, Stale, PickHermes, KeepsGoing, TimePasses, NoMoreStamps;
    var s := Init(c, clock);
    InitOk(c, clock);
    var t := At(c, s, schedule, n0).table[w].stamp;
    var stale := BecomesStale(c, s, schedule, n0, w, t);
    var settled := AllSettle(c, s, schedule, stale, w, t, c.W);
    StaleLater(c, s, schedule, stale, settled, w, t);
    var publish := PublishesLater(c, s, schedule, settled, v);
    SettledStep(c, s, schedule, settled, publish, w, t);
    n := publish + 1;
    forall m: nat | m >= n
      ensures !Bit(At(c, s, schedule, m).msel, w)
      ensures CountOnes(At(c, s, schedule, m).msel) >= 2 ==> PickHermes(c, At(c, s, schedule, m)) != w
    {
      OutForGood(c, s, schedule, settled, n, m, w, t);
      AtKeepsInv(c, s, schedule, m);
      MselLow(c, At(c, s, schedule, m));
      HermesPickIsCandidate(c, At(c, s, schedule, m));
    }
  }

  lemma StaleLater(c: Config, s: State, schedule: nat -> Action, n: nat, m: nat, w: nat, t: int)
    requires c.W > 0 && n <= m && Stale(c, s, schedule, n, w, t)
    ensures Stale(c, s, schedule, m, w, t)
  {
    hide StaleAt;
  }

  // ---- what makes a worker keep going ----

  /** Whenever v consults a timer, it has run out. */
  ghost predicate TimersRunOut(schedule: nat -> Action, v: nat) {
    forall n: nat :: WorkerActs(schedule(n), v) ==> schedule(n).flag
  }

  lemma {:induction false} PollEnds(c: Config, s: State, schedule: nat -> Action, n: nat, v: nat, rank: nat)
    returns (m: nat)
    requires c.W > 0 && Inv(c, s) && v < c.W && TimersRunOut(schedule, v)
    requires forall k: nat :: WorkerActsFrom(schedule, k, v)
    requires forall k: nat :: !At(c, s, schedule, k).shutdown
    requires InShape(c, At(c, s, schedule, n))
    requires var s0 := At(c, s, schedule, n); rank == WaitRank(s0.workers[v].pc, s0.rings[v].consumer)
    ensures m >= n && Working(c, s, schedule, m, v)
    decreases rank
  {
    hide Inv, At, Step, StepWorker, WaitRank, Waiting, Ahead;
    if Working(c, s, schedule, n, v) {
      m := n;
    } else {
      assert WorkerActsFrom(schedule, n, v);
      var turn := NextTurn(c, s, schedule, n, v);
      AtKeepsInv(c, s, schedule, turn);
      NextAt(c, s, schedule, turn);
      OwnStep(c, At(c, s, schedule, turn), schedule(turn), v);
      var s1 := At(c, s, schedule, turn + 1);
      if Waiting(s1.workers[v].pc) {
        m := PollEnds(c, s, schedule, turn + 1, v, WaitRank(s1.workers[v].pc, s1.rings[v].consumer));
      } else {
        m := turn + 1;
      }
    }
  }

  /** A worker keeps going if it is scheduled again and again and its timers run out. */
  lemma TimersKeepWorkerGoing(c: Config, s: State, schedule: nat -> Action, v: nat)
    requires c.W > 0 && Inv(c, s) && v < c.W && TimersRunOut(schedule, v)
    requires forall k: nat :: WorkerActsFrom(schedule, k, v)
    requires forall k: nat :: !At(c, s, schedule, k).shutdown
    ensures KeepsGoing(c, s, schedule, v)
  {
    hide Inv, At, TimersRunOut, WorkerActsFrom, Working;
    forall n: nat ensures PollReturns(c, s, schedule, n, v) {
      AtKeepsInv(c, s, schedule, n);
      InvShape(c, At(c, s, schedule, n));
      var s0 := At(c, s, schedule, n);
      var m := PollEnds(c, s, schedule, n, v, WaitRank(s0.workers[v].pc, s0.rings[v].consumer));
    }
  }

  // ---- such runs exist ----

  /** Worker 0 stamps once and is never heard of again; time and worker 1 go on. */
  function OneHangs(): nat -> Action {
    (n: nat) => if n < 2 then WorkerStep(0, false) else if n % 2 == 0 then Advance(1) else WorkerStep(1, true)
  }

  lemma {:induction false} NoGeneratorNoShutdown(c: Config, s: State, n: nat)
    requires c.W > 0 && !s.shutdown
    ensures !At(c, s, OneHangs(), n).shutdown
  {
    hide StepWorker, Published;
    if n > 0 { NoGeneratorNoShutdown(c, s, n - 1); }
  }

  lemma {:induction false} ClockTicks(c: Config, s: State, k: nat)
    requires c.W > 0 && s.clock >= 0
    ensures At(c, s, OneHangs(), 2 * k + 2).clock >= k
  {
    hide Step;
    if k == 0 {
      ClockMonotone(c, s, OneHangs(), 0, 2);
    } else {
      ClockTicks(c, s, k - 1);
      var before := At(c, s, OneHangs(), 2 * k);
      assert OneHangs()(2 * k) == Advance(1);
      NextAt(c, s, OneHangs(), 2 * k);
      AdvanceTicks(c, before);
      ClockMonotone(c, s, OneHangs(), 2 * k + 1, 2 * k + 2);
    }
  }

  lemma AdvanceTicks(c: Config, s: State)
    requires c.W > 0
    ensures Step(c, s, Advance(1)).clock == s.clock + 1
  {
  }

  lemma FirstStamp(c: Config, clock: nat)
    requires ValidConfig(c)
    ensures var s := At(c, Init(c, clock), OneHangs(), 2); InShape(c, s) && s.table[0].stamp == clock
  {
    hide StepBranch, StepBurst, StepPoll, StepAccept, StepSnap, StepExit;
    var s0 := Init(c, clock);
    NextAt(c, s0, OneHangs(), 0);
    NextAt(c, s0, OneHangs(), 1);
    var s1 := Step(c, s0, WorkerStep(0, false));
    assert InShape(c, s0) && s0.workers[0].pc.StampRead?;
    assert InShape(c, s1) && s1.workers[0].pc == StampStore(clock);
  }

  /** For every configuration with two workers there is a run that meets all the conditions, so
      that worker 0 is out for good. */
  lemma SomeWorkerIsEvicted(c: Config, clock: nat) returns (n: nat)
    requires ValidConfig(c) && c.policy.Hermes? && c.W >= 2 && clock > 0
    ensures forall m: nat :: m >= n ==> !Bit(At(c, Init(c, clock), OneHangs(), m).msel, 0)
  {
    hide Inv, At, Step, Bit, Init, WorkerActsFrom, TimersRunOut, PickHermes;
    var s, schedule := Init(c, clock), OneHangs();
    InitOk(c, clock);
    InitRuns(c, clock);
    forall k: nat ensures !At(c, s, schedule, k).shutdown { NoGeneratorNoShutdown(c, s, k); }
    OneHangsIsFair();
    TimersKeepWorkerGoing(c, s, schedule, 1);
    forall t: int ensures ClockReaches(c, s, schedule, t) {
      var k: nat := if t < 0 then 0 else t;
      ClockTicks(c, s, k);
      assert At(c, s, schedule, 2 * k + 2).clock >= t;
    }
    FirstStamp(c, clock);
    n := HungWorkerIsEvicted(c, clock, schedule, 2, 0, 1);
  }

  lemma InitRuns(c: Config, clock: nat)
    requires c.W > 0
    ensures !Init(c, clock).shutdown && Init(c, clock).clock == clock
  {
  }

  lemma OneHangsIsFair()
    ensures TimersRunOut(OneHangs(), 1) && forall n: nat :: WorkerActsFrom(OneHangs(), n, 1)
  {
    forall n: nat ensures WorkerActsFrom(OneHangs(), n, 1) {
      assert WorkerActs(OneHangs()(2 * n + 3), 1);
    }
  }
}
