/** Where the connections of a run came from and where they went: each was made at one moment of the
    run and, under the Hermes policy, sent where the bitmap of one moment of its dispatch says
    (userspace_simulation/src/generator.rs and dispatcher.rs). A worker that is out of the map gets
    nothing while there are candidates. */
module Dispatches {
  import opened Words
  import opened SpscRing
  import opened Scheduler
  import opened Simulation
  import opened WorkerInvariant
  import opened SystemInvariant
  import opened Guarantees
  import opened Eviction
  import Dispatcher
  import Termination

  /** The state after the first k actions of a run. */
  function After(c: Config, clock: nat, schedule: seq<Action>, k: nat): State
    requires c.W > 0 && k <= |schedule|
  {
    Run(c, Init(c, clock), schedule[..k])
  }

  /** w is where bitmap b sends this hash: with two or more candidates the one whose rank is the low
      hash word scaled to their number, otherwise the low hash word scaled to all workers. */
  ghost predicate SentBy(b: nat, hash: U64, W: nat, w: nat) {
    var n, low := CountOnes(b), hash % TWO_TO_THE_32;
    if n >= 2 then w < W && Bit(b, w) && Rank(b, w) == low * n / TWO_TO_THE_32
    else w == low * W / TWO_TO_THE_32
  }

  /** At this moment the generator chooses for connection id, and M_Sel sends it to w. */
  ghost predicate ChoosesNow(c: Config, s: State, a: Action, id: nat, w: nat) {
    s.gen.pc.Choose? && a.GenStep? && s.gen.generated == id && SentBy(s.msel, HashOf(c, id), c.W, w)
  }

  ghost predicate ChosenOnce(c: Config, clock: nat, schedule: seq<Action>, n: nat, id: nat, w: nat)
    requires c.W > 0 && n <= |schedule|
  {
    exists k: nat :: k < n && ChoosesNow(c, After(c, clock, schedule, k), schedule[k], id, w)
  }

  /** At this moment the generator makes the connection: the clock is its arrival, and its cost what
      was sampled. */
  predicate MakesNow(s: State, a: Action, d: ConnDesc) {
    s.gen.pc.Arrive? && s.gen.generated == d.connId && a == GenStep(d.serviceUs) && s.clock == d.arrivalNs
  }

  ghost predicate MadeOnce(c: Config, clock: nat, schedule: seq<Action>, n: nat, d: ConnDesc)
    requires c.W > 0 && n <= |schedule|
  {
    exists k: nat :: k < n && MakesNow(After(c, clock, schedule, k), schedule[k], d)
  }

  // ---- one step ----

  /** What a step does to the connection in hand. */
  ghost predicate InHandStep(c: Config, s: State, a: Action, s': State) {
    && (c.policy.Hermes? && s'.gen.pc.Arrive? ==>
          || s'.gen == s.gen
          || ChoosesNow(c, s, a, s'.gen.generated, s'.gen.pc.target))
    && (s'.gen.pc.Push? ==>
          && s'.gen.generated == s.gen.generated
          && ((s.gen.pc.Push? && s'.gen.pc.target == s.gen.pc.target && s'.gen.pc.desc == s.gen.pc.desc)
              || (s.gen.pc.Arrive? && s'.gen.pc.target == s.gen.pc.target && MakesNow(s, a, s'.gen.pc.desc))))
    && (s'.fate == s.fate
        || (s.gen.pc.Push? && |s.fate| == s.gen.generated && |s'.fate| == |s.fate| + 1 && s'.fate[..|s.fate|] == s.fate
            && s'.fate[|s.fate|].w == s.gen.pc.target && s'.fate[|s.fate|].desc == s.gen.pc.desc))
    && s'.gen.generated >= s.gen.generated
  }

  lemma ChoiceFollowsBitmap(c: Config, s: State, service: nat)
    requires Inv(c, s) && c.policy.Hermes? && s.gen.pc.Choose?
    ensures var g' := StepGen(c, s, service).gen;
            && g'.pc.Arrive? && g'.generated == s.gen.generated
            && SentBy(s.msel, HashOf(c, s.gen.generated), c.W, g'.pc.target)
  {
    hide HashStream.ConnHash, RingsOk, WorkersOk, AccountsOk, DrainOk, ExamOk, Pow2;
    var hash := GenHash(c, s.gen);
    Dispatcher.HermesMeaning(s.msel, hash, c.W);
    if CountOnes(s.msel) >= 2 { Dispatcher.HermesPicksCandidate(s.msel, hash, c.W); }
    Dispatcher.ReciprocalScaleInRange(hash, 1);
    if CountOnes(s.msel) >= 2 {
      Dispatcher.CountOnesFits(s.msel);
      Dispatcher.ReciprocalScaleInRange(hash, CountOnes(s.msel));
    }
  }

  lemma OtherGenStep(c: Config, s: State, service: nat)
    requires Inv(c, s) && GenLocal(s.gen.pc) && !(s.gen.pc.Choose? && c.policy.Hermes?)
    ensures InHandStep(c, s, GenStep(service), StepGen(c, s, service))
  {
    hide RingsOk, WorkersOk, AccountsOk, DrainOk, ExamOk, PassesOk, PickHermes, PickReuseport, GenHash, SentBy;
  }

  lemma PushGenStep(c: Config, s: State, service: nat)
    requires Inv(c, s) && s.gen.pc.Push?
    ensures InHandStep(c, s, GenStep(service), StepPush(s, s.gen.pc.target))
  {
    hide Stands, WorkersOk, DrainOk, ExamOk, PassesOk, Touch, SentBy, QueuedFor, DropsFor, DropsIn, DispatchedTo, DescribedAs;
    RingStands(c, s, s.gen.pc.target);
    PushTouch(s.rings[s.gen.pc.target], s.fifos[s.gen.pc.target], s.gen.pc.desc);
  }

  lemma LenGenStep(c: Config, s: State, service: nat, i: nat)
    requires Inv(c, s) && (s.gen.pc.LifoIdle? || s.gen.pc.LifoLen?)
    requires i == if s.gen.pc.LifoIdle? then s.gen.pc.i else |s.gen.pc.lens|
    ensures InHandStep(c, s, GenStep(service), StepLen(s, i))
  {
    hide Stands, WorkersOk, DrainOk, ExamOk, PassesOk, AccountsOk, Touch, SentBy, Better;
  }

  lemma StepInHand(c: Config, s: State, a: Action)
    requires Inv(c, s)
    ensures InHandStep(c, s, a, Step(c, s, a))
  {
    hide Inv, StepWorker, StepGen, StepLen, StepPush, Published, SentBy, PickHermes, PickReuseport, GenHash, InHandStep, HashOf;
    InvShape(c, s);
    match a
    case Advance(_) => NothingInHand(c, s, a);
    case WorkerStep(_, _) => NothingInHand(c, s, a);
    case GenStep(service) =>
      if s.gen.pc.Choose? && c.policy.Hermes? {
        ChoiceFollowsBitmap(c, s, service);
        ChoiceInHand(c, s, service);
      } else if GenLocal(s.gen.pc) {
        OtherGenStep(c, s, service);
      } else if s.gen.pc.Push? {
        Termination.RingStepOf(c, s, service);
        PushGenStep(c, s, service);
      } else {
        Termination.RingStepOf(c, s, service);
        LenGenStep(c, s, service, if s.gen.pc.LifoIdle? then s.gen.pc.i else |s.gen.pc.lens|);
      }
  }

  lemma NothingInHand(c: Config, s: State, a: Action)
    requires c.W > 0 && !a.GenStep?
    ensures InHandStep(c, s, a, Step(c, s, a))
  {
    hide StepWorker, Published, SentBy;
  }

  lemma ChoiceInHand(c: Config, s: State, service: nat)
    requires c.W > 0 && s.gen.pc.Choose? && c.policy.Hermes?
    requires var g' := StepGen(c, s, service).gen;
             g'.pc.Arrive? && g'.generated == s.gen.generated
             && SentBy(s.msel, HashOf(c, s.gen.generated), c.W, g'.pc.target)
    ensures InHandStep(c, s, GenStep(service), StepGen(c, s, service))
  {
    hide SentBy, PickHermes, HashOf;
  }

  // ---- every connection of a run ----

  /** What is known after n actions about the connection in hand and all before it. */
  ghost predicate Story(c: Config, clock: nat, schedule: seq<Action>, n: nat)
    requires c.W > 0 && n <= |schedule|
  {
    var s := After(c, clock, schedule, n);
    && (c.policy.Hermes? && (s.gen.pc.Arrive? || s.gen.pc.Push?) ==>
          ChosenOnce(c, clock, schedule, n, s.gen.generated, s.gen.pc.target))
    && (s.gen.pc.Push? ==> MadeOnce(c, clock, schedule, n, s.gen.pc.desc))
    && (forall id :: 0 <= id < |s.fate| ==> MadeOnce(c, clock, schedule, n, s.fate[id].desc))
    && (c.policy.Hermes? ==> forall id: nat :: id < |s.fate| ==> ChosenOnce(c, clock, schedule, n, id, s.fate[id].w))
  }

  lemma OnceLater(c: Config, clock: nat, schedule: seq<Action>, n: nat)
    requires c.W > 0 && n < |schedule|
    ensures forall id: nat, w: nat :: ChosenOnce(c, clock, schedule, n, id, w) ==> ChosenOnce(c, clock, schedule, n + 1, id, w)
    ensures forall d :: MadeOnce(c, clock, schedule, n, d) ==> MadeOnce(c, clock, schedule, n + 1, d)
  {
    hide ChoosesNow, MakesNow, After;
  }

  lemma StoryGoesOn(c: Config, clock: nat, schedule: seq<Action>, n: nat)
    requires ValidConfig(c) && n < |schedule| && Story(c, clock, schedule, n)
    ensures Story(c, clock, schedule, n + 1)
  {
    hide ChoosesNow, MakesNow, Init, Run, Step, Inv, ChosenOnce, MadeOnce;
    var s, s', a := After(c, clock, schedule, n), After(c, clock, schedule, n + 1), schedule[n];
    RunNext(c, Init(c, clock), schedule, n);
    ReachableInv(c, clock, schedule[..n]);
    StepInHand(c, s, a);
    OnceLater(c, clock, schedule, n);
    if s'.gen.pc.Push? && s.gen.pc.Arrive? { MadeNow(c, clock, schedule, n, s'.gen.pc.desc); }
    if c.policy.Hermes? && s'.gen.pc.Arrive? && s'.gen != s.gen {
      ChosenNow(c, clock, schedule, n, s'.gen.generated, s'.gen.pc.target);
    }
    if s'.fate != s.fate { assert forall id :: 0 <= id < |s.fate| ==> s'.fate[id] == s'.fate[..|s.fate|][id]; }
  }

  lemma MadeNow(c: Config, clock: nat, schedule: seq<Action>, n: nat, d: ConnDesc)
    requires c.W > 0 && n < |schedule| && MakesNow(After(c, clock, schedule, n), schedule[n], d)
    ensures MadeOnce(c, clock, schedule, n + 1, d)
  {
  }

  lemma ChosenNow(c: Config, clock: nat, schedule: seq<Action>, n: nat, id: nat, w: nat)
    requires c.W > 0 && n < |schedule| && ChoosesNow(c, After(c, clock, schedule, n), schedule[n], id, w)
    ensures ChosenOnce(c, clock, schedule, n + 1, id, w)
  {
  }

  lemma {:induction false} StoryHolds(c: Config, clock: nat, schedule: seq<Action>, n: nat)
    requires ValidConfig(c) && n <= |schedule|
    ensures Story(c, clock, schedule, n)
  {
    hide ChosenOnce, MadeOnce;
    if n > 0 {
      StoryHolds(c, clock, schedule, n - 1);
      hide Story;
      StoryGoesOn(c, clock, schedule, n - 1);
    }
  }

  /** Every connection of every run was made at one moment of it: its arrival is the clock then, its
      cost what was sampled then, and its hash and lifetime are those of its id. */
  lemma ConnectionsAreAsMade(c: Config, clock: nat, schedule: seq<Action>, id: nat)
    requires ValidConfig(c) && id < |Run(c, Init(c, clock), schedule).fate|
    ensures var d := Run(c, Init(c, clock), schedule).fate[id].desc;
            && MadeOnce(c, clock, schedule, |schedule|, d)
            && d.connId == id && d.hash == HashOf(c, id) && d.lifetimeMs == c.lifetimeMs
  {
    hide Run, Init, MadeOnce, HashOf;
    assert schedule[..|schedule|] == schedule;
    StoryHolds(c, clock, schedule, |schedule|);
    ReachableInv(c, clock, schedule);
    var f := Run(c, Init(c, clock), schedule).fate[id];
    assert DescribedAs(c, f.desc, f.w, id);
  }

  /** Under the Hermes policy every connection of every run went where the bitmap at one moment of
      its dispatch sends its hash. */
  lemma HermesFollowsBitmap(c: Config, clock: nat, schedule: seq<Action>, id: nat)
    requires ValidConfig(c) && c.policy.Hermes? && id < |Run(c, Init(c, clock), schedule).fate|
    ensures ChosenOnce(c, clock, schedule, |schedule|, id, Run(c, Init(c, clock), schedule).fate[id].w)
  {
    hide Run, Init, ChosenOnce, MadeOnce;
    assert schedule[..|schedule|] == schedule;
    StoryHolds(c, clock, schedule, |schedule|);
  }

  // ---- who gets nothing ----

  lemma {:induction false} GeneratedGrows(c: Config, clock: nat, schedule: seq<Action>, k: nat, n: nat)
    requires ValidConfig(c) && k <= n <= |schedule|
    ensures After(c, clock, schedule, k).gen.generated <= After(c, clock, schedule, n).gen.generated
    decreases n - k
  {
    hide Init, Step, Run, Inv;
    if k < n {
      GeneratedGrows(c, clock, schedule, k, n - 1);
      RunNext(c, Init(c, clock), schedule, n - 1);
      ReachableInv(c, clock, schedule[..n - 1]);
      StepInHand(c, After(c, clock, schedule, n - 1), schedule[n - 1]);
    }
  }

  /** The choice for this connection was made at a moment from `from` on, with at most one candidate. */
  ghost predicate FellBack(c: Config, clock: nat, schedule: seq<Action>, from: nat, id: nat)
    requires c.W > 0
  {
    exists k: nat :: from <= k < |schedule| && FallsBackNow(After(c, clock, schedule, k), id)
  }

  predicate FallsBackNow(s: State, id: nat) {
    s.gen.pc.Choose? && s.gen.generated == id && CountOnes(s.msel) <= 1
  }

  /** While w's bit is clear, a connection begun after that is sent to w only by the plain hash, at a
      moment with at most one candidate. */
  lemma ClearBitGetsNothing(c: Config, clock: nat, schedule: seq<Action>, from: nat, w: nat, id: nat)
    requires ValidConfig(c) && c.policy.Hermes? && from <= |schedule|
    requires forall k: nat :: from <= k < |schedule| ==> !Bit(After(c, clock, schedule, k).msel, w)
    requires After(c, clock, schedule, from).gen.generated < id < |Run(c, Init(c, clock), schedule).fate|
    requires Run(c, Init(c, clock), schedule).fate[id].w == w
    ensures FellBack(c, clock, schedule, from, id)
  {
    hide Run, Init, Bit, CountOnes, After, HashOf;
    HermesFollowsBitmap(c, clock, schedule, id);
    var k: nat :| k < |schedule| && ChoosesNow(c, After(c, clock, schedule, k), schedule[k], id, w);
    if k < from { GeneratedGrows(c, clock, schedule, k, from); }
    assert FallsBackNow(After(c, clock, schedule, k), id);
  }

  /** The run `before`, a step of v, then `after`. */
  function Whole(before: seq<Action>, v: nat, flag: bool, after: seq<Action>): seq<Action> {
    before + [WorkerStep(v, flag)] + after
  }

  lemma PrefixOfWhole(c: Config, clock: nat, before: seq<Action>, v: nat, flag: bool, after: seq<Action>, k: nat)
    requires c.W > 0 && k <= |after|
    ensures |before| + 1 + k <= |Whole(before, v, flag, after)|
    ensures After(c, clock, Whole(before, v, flag, after), |before| + 1 + k)
            == Run(c, Step(c, Run(c, Init(c, clock), before), WorkerStep(v, flag)), after[..k])
  {
    hide Step, Init;
    var s := Init(c, clock);
    assert Whole(before, v, flag, after)[..|before| + 1 + k] == before + ([WorkerStep(v, flag)] + after[..k]);
    RunConcat(c, s, before, [WorkerStep(v, flag)] + after[..k]);
    RunConcat(c, Run(c, s, before), [WorkerStep(v, flag)], after[..k]);
    RunOnce(c, Run(c, s, before), WorkerStep(v, flag));
  }

  lemma {:induction false} NoStampPrefix(c: Config, s: State, schedule: seq<Action>, w: nat, k: nat)
    requires c.W > 0 && k <= |schedule| && NoStamp(c, s, schedule, w)
    ensures NoStamp(c, s, schedule[..k], w)
    decreases k
  {
    hide Step, Stamps;
    if k > 0 {
      NoStampPrefix(c, Step(c, s, schedule[0]), schedule[1..], w, k - 1);
      assert schedule[..k][0] == schedule[0] && schedule[..k][1..] == schedule[1..][..k - 1];
    }
  }

  /** What eviction is for: under the conditions of HungWorkerStaysOut, none of the connections begun
      after the publish goes to the hung worker, except by the plain hash at a moment with at most
      one candidate. */
  lemma HungWorkerGetsNothing(c: Config, clock: nat, before: seq<Action>, v: nat, flag: bool, w: nat, after: seq<Action>,
                              id: nat)
    requires ValidConfig(c) && c.policy.Hermes? && v < c.W && w < c.W
    requires var s := Run(c, Init(c, clock), before);
             && InShape(c, s) && s.table[w].stamp != 0 && s.workers[v].pc.Publish?
             && AllPassesLate(s, w, s.table[w].stamp + c.threshold)
             && NoStamp(c, Step(c, s, WorkerStep(v, flag)), after, w)
             && Step(c, s, WorkerStep(v, flag)).gen.generated < id
    requires var fate := Run(c, Init(c, clock), Whole(before, v, flag, after)).fate;
             id < |fate| && fate[id].w == w
    ensures FellBack(c, clock, Whole(before, v, flag, after), |before| + 1, id)
  {
    hide Run, Init, Step, Bit, AllPassesLate, NoStamp, PickHermes, Whole, After, InShape;
    var schedule, from := Whole(before, v, flag, after), |before| + 1;
    assert |schedule| == from + |after| by { WholeLength(before, v, flag, after); }
    forall k: nat | from <= k < |schedule| ensures !Bit(After(c, clock, schedule, k).msel, w) {
      PrefixOfWhole(c, clock, before, v, flag, after, k - from);
      NoStampPrefix(c, Step(c, Run(c, Init(c, clock), before), WorkerStep(v, flag)), after, w, k - from);
      HungWorkerStaysOut(c, clock, before, v, flag, w, after[..k - from]);
    }
    PrefixOfWhole(c, clock, before, v, flag, after, 0);
    assert after[..0] == [];
    RunNothing(c, Step(c, Run(c, Init(c, clock), before), WorkerStep(v, flag)));
    ClearBitGetsNothing(c, clock, schedule, from, w, id);
  }

  lemma WholeLength(before: seq<Action>, v: nat, flag: bool, after: seq<Action>)
    ensures |Whole(before, v, flag, after)| == |before| + 1 + |after|
  {
  }

  lemma RunNothing(c: Config, s: State)
    requires c.W > 0
    ensures Run(c, s, []) == s
  {
  }
}
