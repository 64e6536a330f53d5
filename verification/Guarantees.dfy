/** What every run of the simulated load balancer guarantees, from the zeroed mapping onwards and
    under every interleaving of the generator and the workers. */
module Guarantees {
  import opened Words
  import opened SpscRing
  import opened Scheduler
  import opened Simulation
  import opened WorkerInvariant
  import opened SystemInvariant
  import Dispatcher
  import HashStream

  lemma ReachableInv(c: Config, clock: nat, schedule: seq<Action>)
    requires ValidConfig(c)
    ensures Inv(c, Run(c, Init(c, clock), schedule))
  {
    hide Inv, Init;
    InitOk(c, clock);
    RunKeepsInv(c, Init(c, clock), schedule);
  }

  // ---- counters and log ----

  /** At every step of every run: a worker's published pending count is the unhandled part of its
      counted batch, its connection count is the open connections plus the one being opened, and
      no logged latency is negative. At loop entry the counts are 0 and the open connections. */
  lemma CountersAndLatencies(c: Config, clock: nat, schedule: seq<Action>, w: nat)
    requires ValidConfig(c) && w < c.W
    ensures var s := Run(c, Init(c, clock), schedule);
            && InShape(c, s)
            && var me, slot := s.workers[w], s.table[w];
               && slot.pending == Counted(me.pc) && slot.conns == |me.open| + Opening(me.pc)
               && (me.pc.StampRead? ==> slot.pending == 0 && slot.conns == |me.open|)
               && slot.stamp <= s.clock
               && forall row :: row in me.rows ==> row.arrivalNs <= row.dequeueNs <= row.doneNs <= s.clock
  {
    hide Run, Init;
    ReachableInv(c, clock, schedule);
    var s := Run(c, Init(c, clock), schedule);
    assert WorkerOk(c, ViewOf(s, w), s.clock);
  }

  /** The accesses that meet at one ring never touch one slot together, in any reachable state. */
  lemma NoRaceInAnyRun(c: Config, clock: nat, schedule: seq<Action>, w: nat)
    requires ValidConfig(c) && w < c.W
    ensures var s := Run(c, Init(c, clock), schedule);
            && InShape(c, s)
            && var r := s.rings[w];
               && |r.slots| == c.cap
               && (r.producer.RoomChecked? && r.consumer.DataSeen? ==> r.producer.t % c.cap != r.consumer.h % c.cap)
  {
    hide Run, Init, Stands;
    ReachableInv(c, clock, schedule);
    var s := Run(c, Init(c, clock), schedule);
    var r := s.rings[w];
    if r.producer.RoomChecked? && r.consumer.DataSeen? { NoSlotRace(r, s.fifos[w]); }
  }

  // ---- exactly once ----

  /** How often a connection id occurs in a log. */
  function Occurrences(log: seq<Arrival>, id: nat): nat {
    if log == [] then 0
    else Occurrences(log[..|log| - 1], id) + (if log[|log| - 1].connId == id then 1 else 0)
  }

  lemma {:induction false} QueuedIds(fate: seq<Fate>, w: nat, id: nat)
    requires forall k :: 0 <= k < |fate| ==> fate[k].desc.connId == k
    ensures Occurrences(Arrivals(QueuedFor(fate, w)), id) ==
            if id < |fate| && fate[id].Queued? && fate[id].w == w then 1 else 0
  {
    if fate != [] {
      var front, last := fate[..|fate| - 1], fate[|fate| - 1];
      QueuedIds(front, w, id);
      if last.Queued? && last.w == w {
        var log, grown := Arrivals(QueuedFor(front, w)), Arrivals(QueuedFor(fate, w));
        ArrivalsConcat(QueuedFor(front, w), [last.desc]);
        assert grown == log + [ArrivalOf(last.desc)];
        assert grown[..|grown| - 1] == log;
      } else {
        assert QueuedFor(fate, w) == QueuedFor(front, w);
      }
    }
  }

  /** When a worker has exited, its "accept" lines are exactly the connections accepted into its
      ring, in push order, each once: id occurs in its log once if it was queued there, and
      otherwise not at all. */
  lemma ExitedWorkerServedItsQueue(c: Config, clock: nat, schedule: seq<Action>, w: nat)
    requires ValidConfig(c) && w < c.W
    requires var s := Run(c, Init(c, clock), schedule); InShape(c, s) && s.workers[w].pc.Exited?
    ensures var s := Run(c, Init(c, clock), schedule);
            && AcceptLog(s.workers[w].rows) == Arrivals(QueuedFor(s.fate, w))
            && |s.fate| == s.gen.generated && s.gen.pc.GenDone?
            && forall id: nat :: Occurrences(AcceptLog(s.workers[w].rows), id) ==
                            if id < s.gen.generated && s.fate[id].Queued? && s.fate[id].w == w then 1 else 0
  {
    hide Run, Init;
    ReachableInv(c, clock, schedule);
    var s := Run(c, Init(c, clock), schedule);
    ExitedServed(c, s, w);
    forall id: nat ensures Occurrences(AcceptLog(s.workers[w].rows), id) ==
                      if id < s.gen.generated && s.fate[id].Queued? && s.fate[id].w == w then 1 else 0
    {
      QueuedIds(s.fate, w, id);
    }
  }

  lemma ExitedServed(c: Config, s: State, w: nat)
    requires Inv(c, s) && w < c.W && s.workers[w].pc.Exited?
    ensures AcceptLog(s.workers[w].rows) == Arrivals(QueuedFor(s.fate, w))
    ensures |s.fate| == s.gen.generated && s.gen.pc.GenDone?
    ensures forall k :: 0 <= k < |s.fate| ==> s.fate[k].desc.connId == k
  {
    hide AcceptLog, QueuedFor, HashOf;
    var f := s.fifos[w];
    assert WorkerOk(c, ViewOf(s, w), s.clock);
    assert LeavesDrained(s.workers[w], s.rings[w], f, s.shutdown);
    assert Stands(s.rings[w], f);
    assert f.popped == f.accepted;
    assert Arrivals([]) == [];
  }

  // ---- conservation ----

  function AcceptRowsIn(workers: seq<Worker>): nat {
    if workers == [] then 0
    else AcceptRowsIn(workers[..|workers| - 1]) + |AcceptLog(workers[|workers| - 1].rows)|
  }

  function QueuedBelow(fate: seq<Fate>, W: nat): nat {
    if W == 0 then 0 else QueuedBelow(fate, W - 1) + |QueuedFor(fate, W - 1)|
  }

  lemma {:induction false} QueuedBelowGrows(fate: seq<Fate>, f: Fate, W: nat)
    ensures QueuedBelow(fate + [f], W) == QueuedBelow(fate, W) + (if f.Queued? && f.w < W then 1 else 0)
  {
    if W > 0 {
      QueuedBelowGrows(fate, f, W - 1);
      FateGrows(fate, f, W - 1);
    }
  }

  lemma {:induction false} NothingQueued(W: nat)
    ensures QueuedBelow([], W) == 0
  {
    if W > 0 { NothingQueued(W - 1); }
  }

  /** Every connection was queued somewhere or dropped. */
  lemma {:induction false} FateAddsUp(fate: seq<Fate>, W: nat)
    requires forall k :: 0 <= k < |fate| ==> fate[k].w < W
    ensures |fate| == QueuedBelow(fate, W) + DropsIn(fate)
  {
    if fate == [] {
      NothingQueued(W);
    } else {
      var front, last := fate[..|fate| - 1], fate[|fate| - 1];
      FateAddsUp(front, W);
      assert fate == front + [last];
      QueuedBelowGrows(front, last, W);
    }
  }

  /** Whatever was handed to a worker was queued or dropped there. */
  lemma {:induction false} DispatchedAddsUp(fate: seq<Fate>, w: nat)
    ensures DispatchedTo(fate, w) == |QueuedFor(fate, w)| + DropsFor(fate, w)
  {
    if fate != [] { DispatchedAddsUp(fate[..|fate| - 1], w); }
  }

  lemma {:induction false} RowsAreQueued(workers: seq<Worker>, fate: seq<Fate>)
    requires forall w :: 0 <= w < |workers| ==> |AcceptLog(workers[w].rows)| == |QueuedFor(fate, w)|
    ensures AcceptRowsIn(workers) == QueuedBelow(fate, |workers|)
    decreases |workers|
  {
    if workers != [] { RowsAreQueued(workers[..|workers| - 1], fate); }
  }

  predicate AllExited(s: State) {
    forall w :: 0 <= w < |s.workers| ==> s.workers[w].pc.Exited?
  }

  /** Conservation: once every worker has exited, the connections generated are those logged as
      accepted plus those dropped; the pacing made ceil(duration / interval) of them; and what
      was handed to each worker is what it logged as accepted plus its shared drop counter. */
  lemma Conservation(c: Config, clock: nat, schedule: seq<Action>)
    requires ValidConfig(c) && AllExited(Run(c, Init(c, clock), schedule))
    ensures var s := Run(c, Init(c, clock), schedule);
            && s.gen.generated == AcceptRowsIn(s.workers) + s.gen.dropped
            && s.gen.generated == Dispatcher.CeilDiv(c.duration, c.interval)
            && InShape(c, s)
            && forall w :: 0 <= w < c.W ==>
                 && s.drops[w] == DropsFor(s.fate, w)
                 && s.gen.dispatched[w] == |AcceptLog(s.workers[w].rows)| + s.drops[w]
  {
    hide Run, Init;
    ReachableInv(c, clock, schedule);
    AllExitedConserves(c, Run(c, Init(c, clock), schedule));
  }

  lemma AllExitedConserves(c: Config, s: State)
    requires Inv(c, s) && AllExited(s)
    ensures s.gen.generated == AcceptRowsIn(s.workers) + s.gen.dropped
    ensures s.gen.generated == Dispatcher.CeilDiv(c.duration, c.interval)
    ensures forall w :: 0 <= w < c.W ==>
              && s.drops[w] == DropsFor(s.fate, w)
              && s.gen.dispatched[w] == |AcceptLog(s.workers[w].rows)| + s.drops[w]
  {
    hide RingsOk, WorkersOk, PassesOk, AcceptLog, QueuedFor, DropsFor, DropsIn, DispatchedTo;
    ExitedServed(c, s, 0);
    forall w | 0 <= w < |s.workers|
      ensures |AcceptLog(s.workers[w].rows)| == |QueuedFor(s.fate, w)|
      ensures DispatchedTo(s.fate, w) == |QueuedFor(s.fate, w)| + DropsFor(s.fate, w)
    {
      ExitedServed(c, s, w);
      DispatchedAddsUp(s.fate, w);
    }
    RowsAreQueued(s.workers, s.fate);
    FateAddsUp(s.fate, c.W);
    PacingStops(s.gen.generated, c.duration, c.interval);
  }

  lemma PacingStops(n: nat, duration: nat, interval: nat)
    requires interval > 0 && n * interval >= duration
    requires n == 0 || (n - 1) * interval < duration
    ensures n == Dispatcher.CeilDiv(duration, interval)
  {
    Dispatcher.CeilDivBound(duration, interval, n);
    if n > 0 { Dispatcher.CeilDivBound(duration, interval, n - 1); }
  }

  // ---- the bitmap and the dispatcher ----

  /** Whatever order the publishes land in, M_Sel never has a bit at or above the worker count;
      with two or more candidates the Hermes dispatcher then picks a candidate. */
  lemma BitmapAlwaysUsable(c: Config, clock: nat, schedule: seq<Action>)
    requires ValidConfig(c)
    ensures var s := Run(c, Init(c, clock), schedule);
            && s.msel < Pow2(c.W)
            && (CountOnes(s.msel) >= 2 ==> PickHermes(c, s) < c.W && Bit(s.msel, PickHermes(c, s)))
  {
    hide Run, Init, Pow2;
    ReachableInv(c, clock, schedule);
    var s := Run(c, Init(c, clock), schedule);
    HermesPickIsCandidate(c, s);
  }

  lemma HermesPickIsCandidate(c: Config, s: State)
    requires ValidConfig(c) && s.msel < Pow2(c.W)
    ensures CountOnes(s.msel) >= 2 ==> PickHermes(c, s) < c.W && Bit(s.msel, PickHermes(c, s))
  {
    hide GenHash, Pow2, Bit;
    if CountOnes(s.msel) >= 2 {
      Dispatcher.HermesPicksCandidate(s.msel, GenHash(c, s.gen), c.W);
    }
  }

  /** Every publish stores a usable map: it keeps at least a ninth of the workers its pass found
      alive, and is empty exactly if it found none. */
  lemma EveryPublishKeepsANinth(c: Config, clock: nat, schedule: seq<Action>, v: nat, flag: bool)
    requires ValidConfig(c) && v < c.W
    requires var s := Run(c, Init(c, clock), schedule); InShape(c, s) && s.workers[v].pc.Publish?
    ensures var s := Run(c, Init(c, clock), schedule);
            var pc, msel := s.workers[v].pc, Step(c, s, WorkerStep(v, flag)).msel;
            && |pc.got| == c.W
            && |Stage1(pc.got, pc.now, c.threshold)| <= 9 * CountOnes(msel)
            && (msel == 0 <==> forall w :: 0 <= w < c.W ==> !Alive(pc.got[w], pc.now, c.threshold))
  {
    hide Run, Init;
    ReachableInv(c, clock, schedule);
    PublishKeepsANinth(c, Run(c, Init(c, clock), schedule), v);
  }

  lemma PublishKeepsANinth(c: Config, s: State, v: nat)
    requires Inv(c, s) && v < c.W && s.workers[v].pc.Publish?
    ensures var pc, msel := s.workers[v].pc, Published(c, s.workers[v].pc, s.msel);
            && |pc.got| == c.W
            && |Stage1(pc.got, pc.now, c.threshold)| <= 9 * CountOnes(msel)
            && (msel == 0 <==> forall w :: 0 <= w < c.W ==> !Alive(pc.got[w], pc.now, c.threshold))
  {
    hide RingsOk, WorkersOk, AccountsOk, ExamOk, Stage1, Stage2, Stage3, FoldBits, Pow2, CountOnes, Alive;
    var pc := s.workers[v].pc;
    assert PassOk(pc, s.clock, s.table);
    ScheduleBitmap(pc.got, pc.now, c.threshold);
    CascadeKeepsANinth(pc.got, pc.now, c.threshold);
    PublishedLow(c, s, v);
  }

  /** Only the Hermes policy runs the scheduler: under the others M_Sel stays zero. */
  lemma {:induction false} OthersNeverPublish(c: Config, clock: nat, schedule: seq<Action>, n: nat)
    requires ValidConfig(c) && !c.policy.Hermes? && n <= |schedule|
    ensures Unscheduled(Run(c, Init(c, clock), schedule[..n]))
  {
    hide Init, Step, Unscheduled;
    if n == 0 {
      InitUnscheduled(c, clock);
    } else {
      OthersNeverPublish(c, clock, schedule, n - 1);
      RunNext(c, Init(c, clock), schedule, n - 1);
      UnscheduledStays(c, Run(c, Init(c, clock), schedule[..n - 1]), schedule[n - 1]);
    }
  }

  ghost predicate Unscheduled(s: State) {
    s.msel == 0 && forall w :: 0 <= w < |s.workers| ==> !InPass(s.workers[w].pc)
  }

  lemma InitUnscheduled(c: Config, clock: nat)
    requires c.W > 0
    ensures Unscheduled(Init(c, clock))
  {
  }

  lemma UnscheduledStays(c: Config, s: State, a: Action)
    requires c.W > 0 && !c.policy.Hermes? && Unscheduled(s)
    ensures Unscheduled(Step(c, s, a))
  {
    hide Touch, GenHash, PickHermes, PickReuseport, StepBranch, StepBurst, StepPoll, StepAccept, StepExit, StepSnap;
    if a.WorkerStep? && a.w < c.W && InShape(c, s) && !s.workers[a.w].pc.PassRead? {
      OnlyPassReadStarts(c, ViewOf(s, a.w), s.clock, s.shutdown, s.table, a.flag);
    }
  }

  // ---- the reuseport policy ----

  /** Under the reuseport policy every connection of every run went where its hash says. */
  lemma ReuseportFollowsHash(c: Config, clock: nat, schedule: seq<Action>, k: nat)
    requires ValidConfig(c) && c.policy.ReuseportHash? && k < |Run(c, Init(c, clock), schedule).fate|
    ensures var f := Run(c, Init(c, clock), schedule).fate[k];
            f.desc.connId == k && f.desc.hash == HashOf(c, k) && f.w == Dispatcher.ReuseportHash(HashOf(c, k), c.W)
  {
    hide Run, Init, HashOf;
    ReachableInv(c, clock, schedule);
    assert DescribedAs(c, Run(c, Init(c, clock), schedule).fate[k].desc, Run(c, Init(c, clock), schedule).fate[k].w, k);
  }

  /** The connections of block q that were handed to worker w. */
  ghost function HandedTo(fate: seq<Fate>, q: U32, w: nat): set<int>
    requires q * TWO_TO_THE_32 + TWO_TO_THE_32 <= |fate|
  {
    set k | k in HashStream.Block(q) && fate[k].w == w
  }

  /** So once a whole aligned block of 2^32 connections has been generated, each worker was handed
      floor or ceil of 2^32 / W of it, whatever the interleaving; exactly 2^30 each of four. */
  lemma ReuseportSpreadsEvenly(c: Config, clock: nat, schedule: seq<Action>, q: U32, w: nat)
    requires ValidConfig(c) && c.policy.ReuseportHash? && w < c.W
    requires q * TWO_TO_THE_32 + TWO_TO_THE_32 <= |Run(c, Init(c, clock), schedule).fate|
    ensures var got := |HandedTo(Run(c, Init(c, clock), schedule).fate, q, w)|;
            && TWO_TO_THE_32 / c.W <= got <= Dispatcher.CeilDiv(TWO_TO_THE_32, c.W)
            && (c.W == Dispatcher.NUM_WORKERS ==> got == 0x4000_0000)
  {
    hide Run, Init, Dispatcher.ReuseportHash, HashStream.ConnHash, Dispatcher.CeilDiv;
    var fate := Run(c, Init(c, clock), schedule).fate;
    forall k | k in HashStream.Block(q)
      ensures k in HandedTo(fate, q, w) <==> k in HashStream.BlockIdsFor(q, c.seed, c.W, w)
    {
      ReuseportFollowsHash(c, clock, schedule, k);
      BlockWord(k, q);
    }
    assert HandedTo(fate, q, w) == HashStream.BlockIdsFor(q, c.seed, c.W, w);
    HashStream.ReuseportBalance(q, c.seed, c.W, w);
    if c.W == Dispatcher.NUM_WORKERS { HashStream.ReuseportBalanceOfFour(q, c.seed, w); }
  }

  lemma BlockWord(k: int, q: U32)
    requires k in HashStream.Block(q)
    ensures 0 <= k < TWO_TO_THE_64 && k % TWO_TO_THE_64 == k
  {
    HashStream.BlockMember(k, q, k - q * TWO_TO_THE_32);
    DivUnique(k, TWO_TO_THE_64, 0, k);
  }

  // ---- the LIFO policy ----

  /** The queue lengths the current examination has recorded, worker 0 first. */
  function ExamLens(pc: GenPc): seq<nat> {
    match pc
    case LifoLen(_, lens, _) => lens
    case Arrive(_, Shortest(_, lens)) => lens
    case Push(_, _, Shortest(_, lens)) => lens
    case CountDrop(_, Shortest(_, lens)) => lens
    case _ => []
  }

  function LooksOf(exam: Exam): seq<Look> {
    if exam.NotExamined? then [] else exam.looks
  }

  /** The looks of its idle scan, the last worker first. */
  function ExamLooks(pc: GenPc): seq<Look> {
    match pc
    case LifoIdle(_, looks) => looks
    case LifoPending(_, looks) => looks
    case LifoLen(looks, _, _) => looks
    case Arrive(_, exam) => LooksOf(exam)
    case Push(_, _, exam) => LooksOf(exam)
    case CountDrop(_, exam) => LooksOf(exam)
    case _ => []
  }

  /** The current examination holds this finding about worker j. */
  predicate Records(W: nat, pc: GenPc, j: nat, look: Look) {
    || (j < W && W - 1 - j < |ExamLooks(pc)| && ExamLooks(pc)[W - 1 - j] == look)
    || (j < |ExamLens(pc)| && look == QueueLook(ExamLens(pc)[j]))
  }

  ghost predicate TrueOf(s: State, j: nat, look: Look) {
    && j < |s.fifos| && j < |s.table|
    && match look
       case QueueLook(n) => Length(s.fifos[j]) == n
       case PendingLook(p) => s.table[j].pending == p
  }

  /** After k actions, while connection `id` was being dispatched, the finding was true. */
  ghost predicate SeenAt(c: Config, clock: nat, schedule: seq<Action>, k: nat, j: nat, look: Look, id: nat)
    requires c.W > 0 && k <= |schedule|
  {
    var s := Run(c, Init(c, clock), schedule[..k]);
    s.gen.generated == id && TrueOf(s, j, look)
  }

  /** It was true at some moment within the first n actions. */
  ghost predicate SeenOnce(c: Config, clock: nat, schedule: seq<Action>, n: nat, j: nat, look: Look, id: nat)
    requires c.W > 0 && n <= |schedule|
  {
    exists k: nat :: k <= n && SeenAt(c, clock, schedule, k, j, look, id)
  }

  /** An examination only ever records what is true at that moment. */
  lemma ExamRecordsTruth(c: Config, s: State, a: Action, j: nat, look: Look)
    requires Inv(c, s) && Records(c.W, Step(c, s, a).gen.pc, j, look)
    ensures Step(c, s, a).gen.generated == s.gen.generated
    ensures Records(c.W, s.gen.pc, j, look) || TrueOf(s, j, look)
  {
    hide Inv, StepWorker, StepLen, StepPush, Published, GenHash, PickHermes, PickReuseport, TrueOf;
    if a.GenStep? {
      if s.gen.pc.LifoLen? || s.gen.pc.LifoIdle? {
        LenRecordsTruth(c, s, j, look);
      } else if s.gen.pc.Push? {
        PushRecordsNothing(s);
      } else if s.gen.pc.LifoPending? {
        PendingRecordsTruth(c, s, a.service, j, look);
      }
    }
  }

  lemma LenRecordsTruth(c: Config, s: State, j: nat, look: Look)
    requires Inv(c, s) && (s.gen.pc.LifoLen? || s.gen.pc.LifoIdle?)
    requires var i := if s.gen.pc.LifoIdle? then s.gen.pc.i else |s.gen.pc.lens|;
             Records(c.W, StepLen(s, i).gen.pc, j, look)
    ensures var i := if s.gen.pc.LifoIdle? then s.gen.pc.i else |s.gen.pc.lens|;
            StepLen(s, i).gen.generated == s.gen.generated
            && (Records(c.W, s.gen.pc, j, look) || TrueOf(s, j, look))
  {
    hide Stands, WorkersOk, AccountsOk, PassesOk, DrainOk, Touch, Better, ExamOk;
    var i := if s.gen.pc.LifoIdle? then s.gen.pc.i else |s.gen.pc.lens|;
    RingStands(c, s, i);
    LenTouch(s.rings[i], s.fifos[i]);
  }

  lemma PendingRecordsTruth(c: Config, s: State, service: nat, j: nat, look: Look)
    requires Inv(c, s) && s.gen.pc.LifoPending? && Records(c.W, StepGen(c, s, service).gen.pc, j, look)
    ensures StepGen(c, s, service).gen.generated == s.gen.generated
    ensures Records(c.W, s.gen.pc, j, look) || TrueOf(s, j, look)
  {
    hide RingsOk, WorkersOk, AccountsOk, PassesOk, DrainOk, ExamOk, Touch, StepLen, StepPush;
  }

  lemma PushRecordsNothing(s: State)
    requires s.gen.pc.Push?
    ensures var pc, g' := s.gen.pc, StepPush(s, s.gen.pc.target).gen;
            && g'.generated == s.gen.generated
            && (ExamLens(g'.pc) == ExamLens(pc) || ExamLens(g'.pc) == [])
            && (ExamLooks(g'.pc) == ExamLooks(pc) || ExamLooks(g'.pc) == [])
  {
    hide Touch;
  }

  /** So whatever the dispatcher has found about the workers was so at some moment while it was
      dispatching the current connection. */
  lemma {:induction false} ExamIsTrue(c: Config, clock: nat, schedule: seq<Action>, n: nat, j: nat, look: Look)
    requires ValidConfig(c) && n <= |schedule|
    requires Records(c.W, Run(c, Init(c, clock), schedule[..n]).gen.pc, j, look)
    ensures SeenOnce(c, clock, schedule, n, j, look, Run(c, Init(c, clock), schedule[..n]).gen.generated)
  {
    hide Init, Step, Records, TrueOf;
    var s' := Run(c, Init(c, clock), schedule[..n]);
    if n == 0 {
      NothingExamined(c, clock, j, look);
    } else {
      var s := Run(c, Init(c, clock), schedule[..n - 1]);
      RunNext(c, Init(c, clock), schedule, n - 1);
      ReachableInv(c, clock, schedule[..n - 1]);
      ExamRecordsTruth(c, s, schedule[n - 1], j, look);
      if Records(c.W, s.gen.pc, j, look) {
        ExamIsTrue(c, clock, schedule, n - 1, j, look);
      } else {
        assert SeenAt(c, clock, schedule, n - 1, j, look, s'.gen.generated);
      }
    }
  }

  lemma NothingExamined(c: Config, clock: nat, j: nat, look: Look)
    requires c.W > 0
    ensures !Records(c.W, Init(c, clock).gen.pc, j, look)
  {
  }

  /** Under the LIFO policy a connection is dropped only if each worker's ring was full at some
      moment while the dispatcher was examining the rings for that connection, although workers
      pop between the length reads and the push. */
  lemma LifoDropsOnlyWhenAllFull(c: Config, clock: nat, schedule: seq<Action>, j: nat)
    requires ValidConfig(c) && c.policy.Lifo? && j < c.W
    requires Run(c, Init(c, clock), schedule).gen.pc.CountDrop?
    ensures SeenOnce(c, clock, schedule, |schedule|, j, QueueLook(c.cap), Run(c, Init(c, clock), schedule).gen.generated)
  {
    hide Run, Init, SeenOnce, Inv, ExamLens;
    ReachableInv(c, clock, schedule);
    DropSawAllFull(c, Run(c, Init(c, clock), schedule), j);
    assert schedule[..|schedule|] == schedule;
    ExamIsTrue(c, clock, schedule, |schedule|, j, QueueLook(c.cap));
  }

  lemma DropSawAllFull(c: Config, s: State, j: nat)
    requires Inv(c, s) && c.policy.Lifo? && s.gen.pc.CountDrop? && j < c.W
    ensures Records(c.W, s.gen.pc, j, QueueLook(c.cap))
  {
    hide RingsOk, WorkersOk, AccountsOk, PassesOk, DrainOk;
  }

  /** Worker j was found not idle while connection `id` was being dispatched: its queue held
      something, or its pending count was not 0. */
  ghost predicate FoundBusy(c: Config, clock: nat, schedule: seq<Action>, j: nat, id: nat)
    requires c.W > 0
  {
    exists look :: Busy(look) && SeenOnce(c, clock, schedule, |schedule|, j, look, id)
  }

  /** What the LIFO dispatcher picks is the last worker not found busy: its pending count was 0
      when read, and its ring is empty, still. If all were found busy it is the worker whose ring
      was the shortest when examined, the last of equals. */
  lemma LifoPicksIdleOrShortest(c: Config, clock: nat, schedule: seq<Action>)
    requires ValidConfig(c) && c.policy.Lifo? && Run(c, Init(c, clock), schedule).gen.pc.Arrive?
    ensures var s := Run(c, Init(c, clock), schedule);
            var id, target := s.gen.generated, s.gen.pc.target;
            && target < |s.fifos| == c.W
            && match s.gen.pc.exam
               case NotExamined => false
               case FoundIdle(w, _) =>
                 && w == target && Length(s.fifos[w]) == 0
                 && SeenOnce(c, clock, schedule, |schedule|, w, PendingLook(0), id)
                 && forall j: nat :: w < j < c.W ==> FoundBusy(c, clock, schedule, j, id)
               case Shortest(_, lens) =>
                 && (forall j: nat :: j < c.W ==> FoundBusy(c, clock, schedule, j, id))
                 && |lens| == c.W && IsShortest(lens, target)
                 && forall j: nat :: j < c.W ==> SeenOnce(c, clock, schedule, |schedule|, j, QueueLook(lens[j]), id)
  {
    hide Run, Init, SeenOnce, Inv, Busy, Records;
    ReachableInv(c, clock, schedule);
    var s := Run(c, Init(c, clock), schedule);
    assert schedule[..|schedule|] == schedule;
    LifoExam(c, s);
    var exam := s.gen.pc.exam;
    forall j: nat | j < c.W && ScanTurn(c.W, j) < |exam.looks| && Busy(exam.looks[ScanTurn(c.W, j)])
      ensures FoundBusy(c, clock, schedule, j, s.gen.generated)
    {
      ExamIsTrue(c, clock, schedule, |schedule|, j, exam.looks[ScanTurn(c.W, j)]);
    }
    if exam.FoundIdle? {
      ExamIsTrue(c, clock, schedule, |schedule|, exam.w, PendingLook(0));
    } else {
      forall j: nat | j < c.W
        ensures SeenOnce(c, clock, schedule, |schedule|, j, QueueLook(exam.lens[j]), s.gen.generated)
      {
        ExamIsTrue(c, clock, schedule, |schedule|, j, QueueLook(exam.lens[j]));
      }
    }
  }

  /** When in the idle scan worker j is looked at. */
  function ScanTurn(W: nat, j: nat): nat
    requires j < W
  {
    W - 1 - j
  }

  /** A finished examination, as recorded. */
  lemma LifoExam(c: Config, s: State)
    requires Inv(c, s) && c.policy.Lifo? && s.gen.pc.Arrive?
    ensures var target, exam := s.gen.pc.target, s.gen.pc.exam;
            && !exam.NotExamined? && target < |s.fifos| == c.W
            && (forall j: nat :: j < c.W && ScanTurn(c.W, j) < |exam.looks| ==>
                  Records(c.W, s.gen.pc, j, exam.looks[ScanTurn(c.W, j)]))
            && (exam.FoundIdle? ==>
                  && exam.w == target && Length(s.fifos[target]) == 0
                  && Records(c.W, s.gen.pc, target, PendingLook(0))
                  && forall j: nat :: target < j < c.W ==> ScanTurn(c.W, j) < |exam.looks| && Busy(exam.looks[ScanTurn(c.W, j)]))
            && (exam.Shortest? ==>
                  && |exam.looks| == |exam.lens| == c.W && IsShortest(exam.lens, target)
                  && forall j: nat :: j < c.W ==>
                       Busy(exam.looks[ScanTurn(c.W, j)]) && Records(c.W, s.gen.pc, j, QueueLook(exam.lens[j])))
  {
    hide WorkersOk, AccountsOk, PassesOk, DrainOk, Busy;
    RingStands(c, s, s.gen.pc.target);
  }
}
