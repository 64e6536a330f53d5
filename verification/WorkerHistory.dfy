/** What a worker's state says about its past (userspace_simulation/src/worker.rs and wst.rs). An
    observer who sees only where the worker stands, which connections it holds, the clock, the timers
    and the table takes notes; in every run the worker's stamp, open connections, follow-ups, log and
    scheduler pass are exactly what the notes say. */
module WorkerHistory {
  import opened Words
  import opened SpscRing
  import opened Scheduler
  import opened Simulation
  import opened WorkerInvariant
  import opened SystemInvariant
  import opened Guarantees
  import opened SimWorkers

  // ---- the observer ----

  datatype Expiry = NoExpiry | LastExpiry(now: int, logged: nat)

  datatype Burst = NotFired | Fired(at: int, ids: seq<nat>)

  /** Clock readings before and after one service. */
  datatype Interval = Interval(dequeue: int, done: int)

  /** The clock at the last loop entry; whether the hang timer was ever found run out; the clock and
      the number of log lines at the last expiry; when the burst fired and what was open then; the
      clock before and after the current service, and of all services so far; the clock at the last
      pass and the table fields read since, in order; and how often each stage of the loop began. */
  datatype Notes = Notes(stamp: int, hung: bool, expiry: Expiry, burst: Burst, start: int, end: int,
                         served: seq<Interval>, pass: int, seen: seq<int>, laps: Laps)

  /** Loop entries, hang checks, expiries, burst checks, batches and scheduler passes. */
  datatype Laps = Laps(entries: nat, hangs: nat, expiries: nat, bursts: nat, batches: nat, passes: nat)

  const BLANK := Notes(0, false, NoExpiry, NotFired, 0, 0, [], 0, [], Laps(0, 0, 0, 0, 0, 0))

  function OpenIds(open: seq<OpenConn>): (ids: seq<nat>) {
    seq(|open|, i requires 0 <= i < |open| => open[i].connId)
  }

  function Field(row: Snapshot, k: nat): int {
    if k == 0 then row.stamp else if k == 1 then row.pending else row.conns
  }

  /** What is noted when the worker takes a step. */
  function Noted(p: Notes, me: Worker, clock: int, table: seq<Snapshot>, flag: bool): Notes {
    match me.pc
    case StampRead => p.(stamp := clock, laps := p.laps.(entries := p.laps.entries + 1))
    case HangCheck => p.(hung := p.hung || flag, laps := p.laps.(hangs := p.laps.hangs + 1))
    case ExpiryRead =>
      p.(expiry := LastExpiry(clock, |me.rows|), laps := p.laps.(expiries := p.laps.expiries + 1))
    case BurstCheck =>
      p.(burst := if flag && p.burst.NotFired? then Fired(clock, OpenIds(me.open)) else p.burst,
         laps := p.laps.(bursts := p.laps.bursts + 1))
    case Branch => p.(laps := p.laps.(batches := p.laps.batches + 1))
    case BurstNext(ids) => if ids != [] then p.(start := clock) else p
    case AcceptRead(_) => p.(start := clock)
    case BurstServe(_, _) => p.(end := clock)
    case AcceptServe(_, _) => p.(end := clock)
    case BurstDone(_, _, _) => p.(served := p.served + [Interval(p.start, p.end)])
    case AcceptDone(_, _, _) => p.(served := p.served + [Interval(p.start, p.end)])
    case PassRead => p.(pass := clock, seen := [], laps := p.laps.(passes := p.laps.passes + 1))
    case SnapStamp(_, _) => NotedField(p, table)
    case SnapPending(_, _, _) => NotedField(p, table)
    case SnapConns(_, _, _, _) => NotedField(p, table)
    case _ => p
  }

  /** The table is read row by row, stamp, pending count and connection count. */
  function NotedField(p: Notes, table: seq<Snapshot>): Notes {
    var row := |p.seen| / 3;
    if row < |table| then p.(seen := p.seen + [Field(table[row], |p.seen| % 3)]) else p
  }

  // ---- what the notes say ----

  /** The table holds the last loop entry. */
  ghost predicate StampOk(me: Worker, slot: Snapshot, p: Notes) {
    if me.pc.StampStore? then me.pc.t == p.stamp else slot.stamp == p.stamp
  }

  /** Only the named worker hangs, and only once. */
  ghost predicate HangOk(c: Config, w: nat, me: Worker, p: Notes) {
    me.hangPending <==> c.hangWorker == Some(w) && !p.hung
  }

  /** A lap of the loop stamps, checks for the hang, expires, checks for the burst, serves a batch and
      passes, once each and in this order; only a lap in which the worker hangs ends after its check. */
  ghost predicate LapsOk(c: Config, w: nat, pc: WorkerPc, p: Notes) {
    var l := p.laps;
    var full := l.hangs - (if c.hangWorker == Some(w) && p.hung then 1 else 0);
    var served := l.expiries == l.bursts == l.batches;
    if pc.StampRead? then l.entries == l.hangs && full == l.expiries && served && l.batches == l.passes
    else if pc.StampStore? || pc.HangCheck? then
      l.entries == l.hangs + 1 && full == l.expiries && served && l.batches == l.passes
    else if pc.ExpiryRead? then l.entries == l.hangs && full == l.expiries + 1 && served && l.batches == l.passes
    else if pc.Expire? || pc.BurstCheck? then
      l.entries == l.hangs && full == l.expiries == l.bursts + 1 == l.batches + 1 == l.passes + 1
    else if pc.Branch? then l.entries == l.hangs && full == l.expiries == l.bursts == l.batches + 1 == l.passes + 1
    else if InPass(pc) || pc.ExitFlag? || pc.ExitLen? || pc.Exited? then
      l.entries == l.hangs && full == l.expiries && served && l.batches == l.passes
    else l.entries == l.hangs && full == l.expiries && served && l.batches == l.passes + 1
  }

  /** The connections opened by the accept lines of a log, each until its end of service plus the
      lifetime. */
  function Opened(c: Config, rows: seq<ConnRow>): seq<OpenConn> {
    if rows == [] then []
    else
      var last := rows[|rows| - 1];
      Opened(c, rows[..|rows| - 1])
      + (if last.kind == AcceptRow then [OpenConn(last.connId, last.doneNs + c.lifetimeMs * 1_000_000)] else [])
  }

  /** Open is what was accepted and had not run out at the last expiry, then what was accepted since;
      during an expiry, what it has passed over and will keep is what had not run out. */
  ghost predicate OpenOk(c: Config, me: Worker, p: Notes, clock: int) {
    && (p.expiry.LastExpiry? ==> p.expiry.now <= clock && p.expiry.logged <= |me.rows|)
    && match me.pc
       case Expire(now, i) =>
         && p.expiry == LastExpiry(now, |me.rows|) && i <= |me.open|
         && (forall x :: x in me.open ==> x in Opened(c, me.rows))
         && me.open[..i] + StillOpen(me.open[i..], now) == StillOpen(Opened(c, me.rows), now)
       case _ =>
         me.open == match p.expiry
                    case NoExpiry => Opened(c, me.rows)
                    case LastExpiry(now, k) => StillOpen(Opened(c, me.rows[..k]), now) + Opened(c, me.rows[k..])
  }

  /** Connections in hand have the run's lifetime. */
  ghost predicate LifetimesOk(c: Config, ds: seq<ConnDesc>) {
    forall d :: d in ds ==> d.lifetimeMs == c.lifetimeMs
  }

  /** The follow-ups logged, in order. */
  function BurstIds(rows: seq<ConnRow>): seq<nat> {
    if rows == [] then []
    else
      var last := rows[|rows| - 1];
      BurstIds(rows[..|rows| - 1]) + (if last.kind == BurstRow then [last.connId] else [])
  }

  function BurstHand(pc: WorkerPc): seq<nat> {
    match pc
    case BurstNext(ids) => ids
    case BurstServe(ids, _) => ids
    case BurstDone(ids, _, _) => ids
    case _ => []
  }

  /** The burst fires once; then the follow-ups logged, in hand and waiting are the connections open
      when it fired, each once and in order, and their lines bear its time and cost. */
  ghost predicate BurstOk(c: Config, me: Worker, p: Notes) {
    var fires := c.burst.Some? && p.burst.Fired?;
    && (me.burstPending <==> c.burst.Some? && p.burst.NotFired?)
    && BurstIds(me.rows) + BurstHand(me.pc) + me.backlog == (if fires then p.burst.ids else [])
    && (fires ==> me.burstTrigger == p.burst.at)
    && forall row :: row in me.rows && row.kind == BurstRow ==>
         fires && row.arrivalNs == p.burst.at && row.serviceUs == BurstService(c)
  }

  /** Each log line bears the clock before and after its service. */
  ghost predicate ServedOk(me: Worker, p: Notes) {
    && (match me.pc
        case BurstServe(_, dequeue) => dequeue == p.start
        case BurstDone(_, dequeue, done) => dequeue == p.start && done == p.end
        case AcceptServe(_, dequeue) => dequeue == p.start
        case AcceptDone(_, dequeue, done) => dequeue == p.start && done == p.end
        case _ => true)
    && |p.served| == |me.rows|
    && forall i :: 0 <= i < |me.rows| ==> p.served[i] == Interval(me.rows[i].dequeueNs, me.rows[i].doneNs)
  }

  ghost predicate GotIsSeen(got: seq<Snapshot>, seen: seq<int>) {
    && 3 * |got| <= |seen|
    && forall i :: 0 <= i < |got| ==> got[i] == Snapshot(seen[3 * i], seen[3 * i + 1], seen[3 * i + 2])
  }

  /** A pass holds the clock it began with and the table as read since. */
  ghost predicate PassSeenOk(pc: WorkerPc, p: Notes) {
    InPass(pc) ==>
      && pc.now == p.pass && GotIsSeen(pc.got, p.seen)
      && match pc
         case SnapPending(_, got, stamp) => |p.seen| == 3 * |got| + 1 && stamp == p.seen[3 * |got|]
         case SnapConns(_, got, stamp, pending) =>
           |p.seen| == 3 * |got| + 2 && stamp == p.seen[3 * |got|] && pending == p.seen[3 * |got| + 1]
         case _ => |p.seen| == 3 * |pc.got|
  }

  /** The worker's state is what the notes say. */
  ghost predicate PastOk(c: Config, w: nat, me: Worker, slot: Snapshot, p: Notes, clock: int) {
    && StampOk(me, slot, p) && HangOk(c, w, me, p) && LapsOk(c, w, me.pc, p)
    && OpenOk(c, me, p, clock) && LifetimesOk(c, InHand(me.pc))
    && BurstOk(c, me, p) && ServedOk(me, p) && PassSeenOk(me.pc, p)
  }

  // ---- one step of the worker ----

  lemma StampNoted(c: Config, v: View, p: Notes, clock: int, shutdown: bool, table: seq<Snapshot>, flag: bool)
    requires StampOk(v.me, v.slot, p)
    ensures var v' := StepWorker(c, v, clock, shutdown, table, flag);
            StampOk(v'.me, v'.slot, Noted(p, v.me, clock, table, flag))
  {
    hide StepWorker, Noted, StampOk;
    if AtLoop(v.me.pc) || v.me.pc.Expire? {
      LoopStampNoted(c, v, p, clock, shutdown, table, flag);
    } else {
      ServeStampNoted(c, v, p, clock, shutdown, table, flag);
    }
  }

  lemma LoopStampNoted(c: Config, v: View, p: Notes, clock: int, shutdown: bool, table: seq<Snapshot>, flag: bool)
    requires StampOk(v.me, v.slot, p) && (AtLoop(v.me.pc) || v.me.pc.Expire?)
    ensures var v' := StepWorker(c, v, clock, shutdown, table, flag);
            StampOk(v'.me, v'.slot, Noted(p, v.me, clock, table, flag))
  {
    hide StepBranch, StepBurst, StepPoll, StepAccept, StepSnap, StepExit, OpenIds, Ids;
  }

  lemma ServeStampNoted(c: Config, v: View, p: Notes, clock: int, shutdown: bool, table: seq<Snapshot>, flag: bool)
    requires StampOk(v.me, v.slot, p) && !AtLoop(v.me.pc) && !v.me.pc.Expire?
    ensures var v' := StepWorker(c, v, clock, shutdown, table, flag);
            StampOk(v'.me, v'.slot, Noted(p, v.me, clock, table, flag))
  {
    hide StepBranch, StepBurst, StepPoll, StepAccept, StepSnap, StepExit, OpenIds, Ids;
    ServePlaces(c, v, clock, table);
    ServeKeepsStamp(c, v, clock);
  }

  lemma ServeKeepsStamp(c: Config, v: View, clock: int)
    ensures StepBranch(v).slot.stamp == v.slot.stamp && StepBurst(c, v, clock).slot.stamp == v.slot.stamp
    ensures StepAccept(v, clock).slot.stamp == v.slot.stamp && StepExit(v).slot.stamp == v.slot.stamp
    ensures v.me.pc.Poll? ==> StepPoll(v).slot.stamp == v.slot.stamp
  {
    hide Touch;
  }

  lemma HangNoted(c: Config, w: nat, v: View, p: Notes, clock: int, shutdown: bool, table: seq<Snapshot>, flag: bool)
    requires HangOk(c, w, v.me, p)
    ensures var v' := StepWorker(c, v, clock, shutdown, table, flag);
            HangOk(c, w, v'.me, Noted(p, v.me, clock, table, flag))
  {
    hide Touch, OpenIds, Ids;
  }

  lemma LapsNoted(c: Config, w: nat, v: View, p: Notes, clock: int, shutdown: bool, table: seq<Snapshot>, flag: bool)
    requires LapsOk(c, w, v.me.pc, p) && HangOk(c, w, v.me, p)
    ensures LapsOk(c, w, StepWorker(c, v, clock, shutdown, table, flag).me.pc, Noted(p, v.me, clock, table, flag))
  {
    hide StepWorker, Noted, LapsOk, HangOk;
    if AtLoop(v.me.pc) || v.me.pc.Expire? {
      LoopLapsNoted(c, w, v, p, clock, shutdown, table, flag);
    } else {
      ServeLapsNoted(c, w, v, p, clock, shutdown, table, flag);
    }
  }

  lemma LoopLapsNoted(c: Config, w: nat, v: View, p: Notes, clock: int, shutdown: bool, table: seq<Snapshot>, flag: bool)
    requires LapsOk(c, w, v.me.pc, p) && HangOk(c, w, v.me, p) && (AtLoop(v.me.pc) || v.me.pc.Expire?)
    ensures LapsOk(c, w, StepWorker(c, v, clock, shutdown, table, flag).me.pc, Noted(p, v.me, clock, table, flag))
  {
    hide StepBranch, StepBurst, StepPoll, StepAccept, StepSnap, StepExit, OpenIds, Ids;
  }

  /** Where serving, reading the table and leaving can lead. */
  lemma ServePlaces(c: Config, v: View, clock: int, table: seq<Snapshot>)
    ensures v.me.pc.Branch? ==> var pc := StepBranch(v).me.pc; pc.BurstNext? || pc.Poll?
    ensures InBurst(v.me.pc) ==> var pc := StepBurst(c, v, clock).me.pc; InBurst(pc) || pc.PassRead?
    ensures v.me.pc.Poll? ==> var pc := StepPoll(v).me.pc; pc.Poll? || pc.PollCheck?
    ensures InAccept(v.me.pc) ==> var pc := StepAccept(v, clock).me.pc; InAccept(pc) || pc.PassRead?
    ensures InSnap(v.me.pc) ==> InPass(StepSnap(v.me.pc, table))
    ensures v.me.pc.ExitLen? ==> var pc := StepExit(v).me.pc; pc.ExitLen? || pc.Exited? || pc.StampRead?
  {
    hide Touch;
  }

  lemma ServeLapsNoted(c: Config, w: nat, v: View, p: Notes, clock: int, shutdown: bool, table: seq<Snapshot>, flag: bool)
    requires LapsOk(c, w, v.me.pc, p) && !AtLoop(v.me.pc) && !v.me.pc.Expire?
    ensures LapsOk(c, w, StepWorker(c, v, clock, shutdown, table, flag).me.pc, Noted(p, v.me, clock, table, flag))
  {
    hide StepBranch, StepBurst, StepPoll, StepAccept, StepSnap, StepExit, OpenIds, Ids;
    ServePlaces(c, v, clock, table);
  }

  lemma PassNoted(c: Config, v: View, p: Notes, clock: int, shutdown: bool, table: seq<Snapshot>, flag: bool)
    requires PassSeenOk(v.me.pc, p) && PassOk(v.me.pc, clock, table)
    ensures PassSeenOk(StepWorker(c, v, clock, shutdown, table, flag).me.pc, Noted(p, v.me, clock, table, flag))
  {
    hide StepBranch, StepBurst, StepPoll, StepAccept, StepExit, OpenIds, Ids;
    if InSnap(v.me.pc) {
      SnapNoted(v.me.pc, p, clock, table);
    } else if !InPass(v.me.pc) && !v.me.pc.PassRead? {
      OnlyPassReadStarts(c, v, clock, shutdown, table, flag);
    }
  }

  lemma SnapNoted(pc: WorkerPc, p: Notes, clock: int, table: seq<Snapshot>)
    requires InSnap(pc) && PassSeenOk(pc, p) && PassOk(pc, clock, table)
    ensures PassSeenOk(StepSnap(pc, table), NotedField(p, table))
  {
    var g := |pc.got|;
    if pc.SnapStamp? {
      DivUnique(3 * g, 3, g, 0);
    } else if pc.SnapPending? {
      DivUnique(3 * g + 1, 3, g, 1);
    } else {
      DivUnique(3 * g + 2, 3, g, 2);
    }
  }

  lemma ServedNoted(c: Config, v: View, p: Notes, clock: int, shutdown: bool, table: seq<Snapshot>, flag: bool)
    requires ServedOk(v.me, p) && ControlOk(c, v.me, v.ring.consumer)
    ensures var v' := StepWorker(c, v, clock, shutdown, table, flag);
            ServedOk(v'.me, Noted(p, v.me, clock, table, flag))
  {
    hide StepWorker, Noted, ServedOk;
    if Logs(v.me.pc) {
      ServedNotedLog(c, v, p, clock, shutdown, table, flag);
    } else {
      ServedNotedQuiet(c, v, p, clock, shutdown, table, flag);
    }
  }

  lemma ServedNotedLog(c: Config, v: View, p: Notes, clock: int, shutdown: bool, table: seq<Snapshot>, flag: bool)
    requires ServedOk(v.me, p) && ControlOk(c, v.me, v.ring.consumer) && Logs(v.me.pc)
    ensures var v' := StepWorker(c, v, clock, shutdown, table, flag);
            ServedOk(v'.me, Noted(p, v.me, clock, table, flag))
  {
    hide StepBranch, StepPoll, StepSnap, StepExit, OpenIds, Ids;
  }

  lemma ServedNotedQuiet(c: Config, v: View, p: Notes, clock: int, shutdown: bool, table: seq<Snapshot>, flag: bool)
    requires ServedOk(v.me, p) && !Logs(v.me.pc)
    ensures var v' := StepWorker(c, v, clock, shutdown, table, flag);
            ServedOk(v'.me, Noted(p, v.me, clock, table, flag))
  {
    hide StepWorker, Noted, ServedOk;
    if InBurst(v.me.pc) || InAccept(v.me.pc) {
      ServiceNoted(c, v, p, clock, shutdown, table, flag);
    } else {
      NoServiceNoted(c, v, p, clock, shutdown, table, flag);
    }
  }

  lemma ServiceNoted(c: Config, v: View, p: Notes, clock: int, shutdown: bool, table: seq<Snapshot>, flag: bool)
    requires ServedOk(v.me, p) && !Logs(v.me.pc) && (InBurst(v.me.pc) || InAccept(v.me.pc))
    ensures var v' := StepWorker(c, v, clock, shutdown, table, flag);
            ServedOk(v'.me, Noted(p, v.me, clock, table, flag))
  {
    hide StepBranch, StepPoll, StepSnap, StepExit, OpenIds, Ids;
  }

  lemma NoServiceNoted(c: Config, v: View, p: Notes, clock: int, shutdown: bool, table: seq<Snapshot>, flag: bool)
    requires ServedOk(v.me, p) && !InBurst(v.me.pc) && !InAccept(v.me.pc)
    ensures var v' := StepWorker(c, v, clock, shutdown, table, flag);
            ServedOk(v'.me, Noted(p, v.me, clock, table, flag))
  {
    hide Touch, OpenIds, Ids, StepSnap, StepBurst, StepAccept;
    if InSnap(v.me.pc) { SnapStaysInPass(v.me.pc, table); }
  }

  lemma SnapStaysInPass(pc: WorkerPc, table: seq<Snapshot>)
    requires InSnap(pc)
    ensures InPass(StepSnap(pc, table))
  {
  }

  // ---- open connections ----

  lemma OpenedGrows(c: Config, rows: seq<ConnRow>, row: ConnRow)
    ensures Opened(c, rows + [row]) ==
            Opened(c, rows)
            + (if row.kind == AcceptRow then [OpenConn(row.connId, row.doneNs + c.lifetimeMs * 1_000_000)] else [])
  {
    assert (rows + [row])[..|rows|] == rows;
  }

  lemma {:induction false} OpenedConcat(c: Config, a: seq<ConnRow>, b: seq<ConnRow>)
    ensures Opened(c, a + b) == Opened(c, a) + Opened(c, b)
  {
    if b == [] {
      assert a + b == a;
    } else {
      OpenedConcat(c, a, b[..|b| - 1]);
      assert (a + b)[..|a + b| - 1] == a + b[..|b| - 1];
    }
  }

  /** Expiring later makes an earlier expiry of the older part invisible. */
  lemma LaterExpiryCovers(a: seq<OpenConn>, b: seq<OpenConn>, t: int, now: int)
    requires t <= now
    ensures StillOpen(StillOpen(a, t) + b, now) == StillOpen(a + b, now)
  {
    StillOpenConcat(StillOpen(a, t), b, now);
    StillOpenConcat(a, b, now);
    StillOpenTwice(a, t, now);
  }

  lemma {:induction false} StillOpenTwice(a: seq<OpenConn>, t: int, now: int)
    requires t <= now
    ensures StillOpen(StillOpen(a, t), now) == StillOpen(a, now)
  {
    if a != [] {
      StillOpenTwice(a[1..], t, now);
      StillOpenConcat(if a[0].deadline <= t then [] else [a[0]], StillOpen(a[1..], t), now);
    }
  }

  /** The row being logged, if any. */
  predicate Logs(pc: WorkerPc) { pc.AcceptDone? || pc.BurstDone? }

  lemma OpenNotedQuiet(c: Config, v: View, p: Notes, clock: int, shutdown: bool, table: seq<Snapshot>, flag: bool)
    requires OpenOk(c, v.me, p, clock) && ControlOk(c, v.me, v.ring.consumer)
    requires !v.me.pc.ExpiryRead? && !v.me.pc.Expire? && !Logs(v.me.pc)
    ensures var v' := StepWorker(c, v, clock, shutdown, table, flag);
            OpenOk(c, v'.me, Noted(p, v.me, clock, table, flag), clock)
  {
    hide Touch, OpenIds, Ids, StillOpen, Opened;
    QuietKeeps(c, v, clock, shutdown, table, flag);
  }

  lemma QuietKeeps(c: Config, v: View, clock: int, shutdown: bool, table: seq<Snapshot>, flag: bool)
    requires !v.me.pc.ExpiryRead? && !v.me.pc.Expire? && !Logs(v.me.pc)
    ensures var me' := StepWorker(c, v, clock, shutdown, table, flag).me;
            me'.open == v.me.open && me'.rows == v.me.rows && !me'.pc.Expire?
  {
    hide Touch, Ids;
  }

  lemma ExpiryBegins(c: Config, v: View, p: Notes, clock: int, shutdown: bool, table: seq<Snapshot>, flag: bool)
    requires OpenOk(c, v.me, p, clock) && v.me.pc.ExpiryRead?
    ensures var v' := StepWorker(c, v, clock, shutdown, table, flag);
            OpenOk(c, v'.me, Noted(p, v.me, clock, table, flag), clock)
  {
    hide StepBranch, StepBurst, StepPoll, StepAccept, StepSnap, StepExit, StillOpen, Opened;
    var rows, open := v.me.rows, v.me.open;
    assert open[..0] + StillOpen(open[0..], clock) == StillOpen(open, clock) by { assert open[0..] == open; }
    if p.expiry.LastExpiry? {
      var k := p.expiry.logged;
      LaterExpiryCovers(Opened(c, rows[..k]), Opened(c, rows[k..]), p.expiry.now, clock);
      OpenedConcat(c, rows[..k], rows[k..]);
      assert rows[..k] + rows[k..] == rows;
      StillOpenSome(Opened(c, rows[..k]), p.expiry.now);
    }
  }

  lemma StillOpenSome(open: seq<OpenConn>, now: int)
    ensures forall x :: x in StillOpen(open, now) <==> x in open && x.deadline > now
  {
    forall x ensures x in StillOpen(open, now) <==> x in open && x.deadline > now {
      StillOpenMeaning(open, now, x);
      assert x in multiset(StillOpen(open, now)) <==> x in StillOpen(open, now);
      assert x in multiset(open) <==> x in open;
    }
  }

  lemma ExpiryMoves(c: Config, v: View, p: Notes, clock: int, shutdown: bool, table: seq<Snapshot>, flag: bool)
    requires OpenOk(c, v.me, p, clock) && v.me.pc.Expire?
    ensures var v' := StepWorker(c, v, clock, shutdown, table, flag);
            OpenOk(c, v'.me, Noted(p, v.me, clock, table, flag), clock)
  {
    hide StepBranch, StepBurst, StepPoll, StepAccept, StepSnap, StepExit, Opened;
    var Expire(now, i) := v.me.pc;
    var open, rows := v.me.open, v.me.rows;
    if i == |open| {
      assert open[..i] == open && open[i..] == [];
      assert rows[..|rows|] == rows && rows[|rows|..] == [];
      NothingOpened(c);
    } else {
      assert open[i..][1..] == open[i + 1..];
      if open[i].deadline <= now {
        var rest := open[..i] + open[i + 1..];
        assert rest[..i] == open[..i] && rest[i..] == open[i + 1..];
      } else {
        assert open[..i + 1] == open[..i] + [open[i]];
      }
    }
  }

  lemma NothingOpened(c: Config)
    ensures Opened(c, []) == []
  {
  }

  lemma OpenNotedLog(c: Config, v: View, p: Notes, clock: int, shutdown: bool, table: seq<Snapshot>, flag: bool)
    requires OpenOk(c, v.me, p, clock) && ControlOk(c, v.me, v.ring.consumer) && Logs(v.me.pc)
    requires LifetimesOk(c, InHand(v.me.pc))
    ensures var v' := StepWorker(c, v, clock, shutdown, table, flag);
            OpenOk(c, v'.me, Noted(p, v.me, clock, table, flag), clock)
  {
    hide StepBranch, StepPoll, StepSnap, StepExit, StillOpen, Opened;
    var rows := v.me.rows;
    var row :=
      if v.me.pc.AcceptDone?
      then
        var AcceptDone(batch, dequeue, done) := v.me.pc;
        ConnRow(batch[0].connId, batch[0].arrivalNs, dequeue, done, batch[0].serviceUs, AcceptRow)
      else
        var BurstDone(ids, dequeue, done) := v.me.pc;
        ConnRow(ids[0], v.me.burstTrigger, dequeue, done, BurstService(c), BurstRow);
    OpenedGrows(c, rows, row);
    if p.expiry.LastExpiry? {
      var k := p.expiry.logged;
      OpenedGrows(c, rows[k..], row);
      assert (rows + [row])[..k] == rows[..k] && (rows + [row])[k..] == rows[k..] + [row];
    }
  }

  lemma OpenNoted(c: Config, v: View, p: Notes, clock: int, shutdown: bool, table: seq<Snapshot>, flag: bool)
    requires OpenOk(c, v.me, p, clock) && ControlOk(c, v.me, v.ring.consumer) && LifetimesOk(c, InHand(v.me.pc))
    ensures var v' := StepWorker(c, v, clock, shutdown, table, flag);
            OpenOk(c, v'.me, Noted(p, v.me, clock, table, flag), clock)
  {
    hide StepWorker, OpenOk, ControlOk, Noted, LifetimesOk;
    if v.me.pc.ExpiryRead? {
      ExpiryBegins(c, v, p, clock, shutdown, table, flag);
    } else if v.me.pc.Expire? {
      ExpiryMoves(c, v, p, clock, shutdown, table, flag);
    } else if Logs(v.me.pc) {
      OpenNotedLog(c, v, p, clock, shutdown, table, flag);
    } else {
      OpenNotedQuiet(c, v, p, clock, shutdown, table, flag);
    }
  }

  lemma LifetimesNoted(c: Config, v: View, clock: int, shutdown: bool, table: seq<Snapshot>, flag: bool)
    requires Stands(v.ring, v.fifo) && ControlOk(c, v.me, v.ring.consumer)
    requires LifetimesOk(c, InHand(v.me.pc)) && LifetimesOk(c, v.fifo.accepted)
    ensures LifetimesOk(c, InHand(StepWorker(c, v, clock, shutdown, table, flag).me.pc))
  {
    hide Touch, Ids, Stands;
    if v.me.pc.Poll? { PopTouch(v.ring, v.fifo); }
  }

  // ---- follow-ups ----

  lemma BurstIdsGrow(rows: seq<ConnRow>, row: ConnRow)
    ensures BurstIds(rows + [row]) == BurstIds(rows) + (if row.kind == BurstRow then [row.connId] else [])
  {
    assert (rows + [row])[..|rows|] == rows;
  }

  lemma {:induction false} IdsAreOpenIds(open: seq<OpenConn>)
    ensures Ids(open) == OpenIds(open)
  {
    if open != [] { IdsAreOpenIds(open[1..]); }
  }

  lemma BurstNoted(c: Config, v: View, p: Notes, clock: int, shutdown: bool, table: seq<Snapshot>, flag: bool)
    requires BurstOk(c, v.me, p) && ControlOk(c, v.me, v.ring.consumer)
    ensures var v' := StepWorker(c, v, clock, shutdown, table, flag);
            BurstOk(c, v'.me, Noted(p, v.me, clock, table, flag))
  {
    hide StepWorker, Noted, BurstOk, ControlOk;
    if Logs(v.me.pc) {
      BurstNotedLog(c, v, p, clock, shutdown, table, flag);
    } else if v.me.pc.BurstCheck? || v.me.pc.Branch? || InBurst(v.me.pc) {
      BurstNotedMoves(c, v, p, clock, shutdown, table, flag);
    } else {
      BurstNotedQuiet(c, v, p, clock, shutdown, table, flag);
    }
  }

  lemma BurstNotedLog(c: Config, v: View, p: Notes, clock: int, shutdown: bool, table: seq<Snapshot>, flag: bool)
    requires BurstOk(c, v.me, p) && ControlOk(c, v.me, v.ring.consumer) && Logs(v.me.pc)
    ensures var v' := StepWorker(c, v, clock, shutdown, table, flag);
            BurstOk(c, v'.me, Noted(p, v.me, clock, table, flag))
  {
    hide StepWorker, Noted, BurstOk, ControlOk;
    if v.me.pc.AcceptDone? {
      AcceptLogged(c, v, p, clock, shutdown, table, flag);
    } else {
      FollowUpLogged(c, v, p, clock, shutdown, table, flag);
    }
  }

  lemma AcceptLogged(c: Config, v: View, p: Notes, clock: int, shutdown: bool, table: seq<Snapshot>, flag: bool)
    requires BurstOk(c, v.me, p) && ControlOk(c, v.me, v.ring.consumer) && v.me.pc.AcceptDone?
    ensures var v' := StepWorker(c, v, clock, shutdown, table, flag);
            BurstOk(c, v'.me, Noted(p, v.me, clock, table, flag))
  {
    hide StepBranch, StepPoll, StepSnap, StepExit, StepBurst, BurstIds;
    var AcceptDone(batch, dequeue, done) := v.me.pc;
    BurstIdsGrow(v.me.rows, ConnRow(batch[0].connId, batch[0].arrivalNs, dequeue, done, batch[0].serviceUs, AcceptRow));
  }

  lemma FollowUpLogged(c: Config, v: View, p: Notes, clock: int, shutdown: bool, table: seq<Snapshot>, flag: bool)
    requires BurstOk(c, v.me, p) && ControlOk(c, v.me, v.ring.consumer) && v.me.pc.BurstDone?
    ensures var v' := StepWorker(c, v, clock, shutdown, table, flag);
            BurstOk(c, v'.me, Noted(p, v.me, clock, table, flag))
  {
    hide StepBranch, StepPoll, StepSnap, StepExit, StepAccept, BurstIds;
    var BurstDone(ids, dequeue, done) := v.me.pc;
    BurstIdsGrow(v.me.rows, ConnRow(ids[0], v.me.burstTrigger, dequeue, done, BurstService(c), BurstRow));
    FirstMoves(BurstIds(v.me.rows), ids, v.me.backlog);
  }

  lemma FirstMoves(a: seq<nat>, b: seq<nat>, c: seq<nat>)
    requires b != []
    ensures (a + [b[0]]) + b[1..] + c == a + b + c
  {
    assert b == [b[0]] + b[1..];
  }

  lemma BurstNotedMoves(c: Config, v: View, p: Notes, clock: int, shutdown: bool, table: seq<Snapshot>, flag: bool)
    requires BurstOk(c, v.me, p) && ControlOk(c, v.me, v.ring.consumer)
    requires v.me.pc.BurstCheck? || v.me.pc.Branch? || v.me.pc.BurstNext? || v.me.pc.BurstServe?
    ensures var v' := StepWorker(c, v, clock, shutdown, table, flag);
            BurstOk(c, v'.me, Noted(p, v.me, clock, table, flag))
  {
    hide StepAccept, StepPoll, StepSnap, StepExit, BurstIds, Noted;
    if v.me.pc.BurstCheck? {
      hide StepWorker, BurstOk;
      BurstFires(c, v, p, clock, shutdown, table, flag);
    } else if v.me.pc.Branch? {
      NoBurstNoted(p, v.me, clock, table, flag);
      BurstTakes(v);
    } else {
      NoBurstNoted(p, v.me, clock, table, flag);
    }
  }

  lemma BurstFires(c: Config, v: View, p: Notes, clock: int, shutdown: bool, table: seq<Snapshot>, flag: bool)
    requires BurstOk(c, v.me, p) && v.me.pc.BurstCheck?
    ensures var v' := StepWorker(c, v, clock, shutdown, table, flag);
            BurstOk(c, v'.me, Noted(p, v.me, clock, table, flag))
  {
    hide StepBranch, StepBurst, StepAccept, StepPoll, StepSnap, StepExit, BurstIds;
    IdsAreOpenIds(v.me.open);
  }

  lemma BurstTakes(v: View)
    requires v.me.pc.Branch?
    ensures var me, me' := v.me, StepBranch(v).me;
            && BurstHand(me'.pc) + me'.backlog == me.backlog
            && me'.rows == me.rows && me'.burstPending == me.burstPending && me'.burstTrigger == me.burstTrigger
  {
  }

  lemma BurstNotedQuiet(c: Config, v: View, p: Notes, clock: int, shutdown: bool, table: seq<Snapshot>, flag: bool)
    requires BurstOk(c, v.me, p)
    requires !Logs(v.me.pc) && !v.me.pc.BurstCheck? && !v.me.pc.Branch? && !InBurst(v.me.pc)
    ensures var v' := StepWorker(c, v, clock, shutdown, table, flag);
            BurstOk(c, v'.me, Noted(p, v.me, clock, table, flag))
  {
    hide StepWorker, Noted, BurstIds;
    NoBurstMoves(c, v, clock, shutdown, table, flag);
    NoBurstNoted(p, v.me, clock, table, flag);
  }

  lemma NoBurstMoves(c: Config, v: View, clock: int, shutdown: bool, table: seq<Snapshot>, flag: bool)
    requires !Logs(v.me.pc) && !v.me.pc.BurstCheck? && !v.me.pc.Branch? && !InBurst(v.me.pc)
    ensures var me, me' := v.me, StepWorker(c, v, clock, shutdown, table, flag).me;
            && me'.rows == me.rows && me'.backlog == me.backlog && me'.burstPending == me.burstPending
            && me'.burstTrigger == me.burstTrigger && BurstHand(me'.pc) == BurstHand(me.pc) == []
  {
    hide Touch, Ids;
  }

  lemma NoBurstNoted(p: Notes, me: Worker, clock: int, table: seq<Snapshot>, flag: bool)
    requires !me.pc.BurstCheck?
    ensures Noted(p, me, clock, table, flag).burst == p.burst
  {
    hide OpenIds;
  }

  /** A worker's own step, noted, keeps its state what the notes say. */
  lemma StepNoted(c: Config, w: nat, v: View, p: Notes, clock: int, shutdown: bool, table: seq<Snapshot>, flag: bool)
    requires PastOk(c, w, v.me, v.slot, p, clock) && Stands(v.ring, v.fifo) && WorkerOk(c, v, clock)
    requires PassOk(v.me.pc, clock, table) && LifetimesOk(c, v.fifo.accepted)
    ensures var v' := StepWorker(c, v, clock, shutdown, table, flag);
            PastOk(c, w, v'.me, v'.slot, Noted(p, v.me, clock, table, flag), clock)
  {
    hide StepWorker, Noted, StampOk, HangOk, LapsOk, OpenOk, LifetimesOk, BurstOk, ServedOk, PassSeenOk, ControlOk, CountersExact,
         LogExact, Timely, InHand;
    StampNoted(c, v, p, clock, shutdown, table, flag);
    HangNoted(c, w, v, p, clock, shutdown, table, flag);
    LapsNoted(c, w, v, p, clock, shutdown, table, flag);
    OpenNoted(c, v, p, clock, shutdown, table, flag);
    LifetimesNoted(c, v, clock, shutdown, table, flag);
    BurstNoted(c, v, p, clock, shutdown, table, flag);
    ServedNoted(c, v, p, clock, shutdown, table, flag);
    PassNoted(c, v, p, clock, shutdown, table, flag);
  }

  // ---- whole runs ----

  /** The notes on worker w after the first n actions of a run. */
  function NotesAfter(c: Config, clock: nat, schedule: seq<Action>, n: nat, w: nat): Notes
    requires c.W > 0 && n <= |schedule|
  {
    if n == 0 then BLANK
    else
      var p, s := NotesAfter(c, clock, schedule, n - 1, w), Run(c, Init(c, clock), schedule[..n - 1]);
      match schedule[n - 1]
      case WorkerStep(u, flag) =>
        if u == w && w < |s.workers| then Noted(p, s.workers[w], s.clock, s.table, flag) else p
      case _ => p
  }

  lemma {:induction false} QueuedLifetimes(c: Config, fate: seq<Fate>, w: nat)
    requires forall k :: 0 <= k < |fate| ==> fate[k].desc.lifetimeMs == c.lifetimeMs
    ensures LifetimesOk(c, QueuedFor(fate, w))
  {
    if fate != [] { QueuedLifetimes(c, fate[..|fate| - 1], w); }
  }

  lemma AcceptedLifetimes(c: Config, s: State, w: nat)
    requires Inv(c, s) && w < c.W
    ensures LifetimesOk(c, s.fifos[w].accepted)
  {
    hide RingsOk, WorkersOk, PassesOk, DrainOk, ExamOk, QueuedFor, DropsFor, DropsIn, DispatchedTo, HashOf;
    QueuedLifetimes(c, s.fate, w);
  }

  /** Somebody else's step leaves the worker, its stamp and its notes alone. */
  lemma OthersUnnoted(c: Config, s: State, a: Action, w: nat, p: Notes)
    requires Inv(c, s) && w < c.W && !(a.WorkerStep? && a.w == w) && PastOk(c, w, s.workers[w], s.table[w], p, s.clock)
    ensures var s' := Step(c, s, a); InShape(c, s') && PastOk(c, w, s'.workers[w], s'.table[w], p, s'.clock)
  {
    hide StepWorker, StepGen, Published, RingsOk, WorkersOk, PassesOk, AccountsOk, ExamOk, DrainOk, StampOk, HangOk,
         LapsOk, LifetimesOk, BurstOk, ServedOk, PassSeenOk, Opened, StillOpen;
    StepKeepsInv(c, s, a);
    if a.GenStep? { GenLeaves(c, s, a.service); }
  }

  lemma GenLeaves(c: Config, s: State, service: nat)
    requires c.W > 0
    ensures var s' := StepGen(c, s, service); s'.workers == s.workers && s'.table == s.table && s'.clock == s.clock
  {
    hide Touch, GenHash, PickHermes, PickReuseport;
  }

  lemma OwnNoted(c: Config, s: State, w: nat, flag: bool, p: Notes)
    requires Inv(c, s) && w < c.W && PastOk(c, w, s.workers[w], s.table[w], p, s.clock)
    ensures var s' := Step(c, s, WorkerStep(w, flag));
            InShape(c, s') && PastOk(c, w, s'.workers[w], s'.table[w], Noted(p, s.workers[w], s.clock, s.table, flag), s'.clock)
  {
    hide StepWorker, Published, PastOk, AccountsOk, ExamOk, DrainOk, Noted, WorkerOk, Stands, PassOk, LifetimesOk;
    AcceptedLifetimes(c, s, w);
    assert WorkerOk(c, ViewOf(s, w), s.clock) && Stands(s.rings[w], s.fifos[w]);
    assert PassOk(s.workers[w].pc, s.clock, s.table);
    StepNoted(c, w, ViewOf(s, w), p, s.clock, s.shutdown, s.table, flag);
    assert ViewOf(Step(c, s, WorkerStep(w, flag)), w) == StepWorker(c, ViewOf(s, w), s.clock, s.shutdown, s.table, flag);
  }

  lemma InitUnnoted(c: Config, clock: nat, w: nat)
    requires ValidConfig(c) && w < c.W
    ensures var s := Init(c, clock); PastOk(c, w, s.workers[w], s.table[w], BLANK, s.clock)
  {
  }

  /** In every run, after every action, each worker's state is what the notes say. */
  lemma {:induction false} NotesAreExact(c: Config, clock: nat, schedule: seq<Action>, n: nat, w: nat)
    requires ValidConfig(c) && n <= |schedule| && w < c.W
    ensures var s := Run(c, Init(c, clock), schedule[..n]);
            InShape(c, s) && PastOk(c, w, s.workers[w], s.table[w], NotesAfter(c, clock, schedule, n, w), s.clock)
  {
    hide Init, Step, PastOk, Inv, Noted;
    ReachableInv(c, clock, schedule[..n]);
    InvShape(c, Run(c, Init(c, clock), schedule[..n]));
    if n == 0 {
      InitUnnoted(c, clock, w);
    } else {
      var s, a := Run(c, Init(c, clock), schedule[..n - 1]), schedule[n - 1];
      var p := NotesAfter(c, clock, schedule, n - 1, w);
      NotesAreExact(c, clock, schedule, n - 1, w);
      RunNext(c, Init(c, clock), schedule, n - 1);
      ReachableInv(c, clock, schedule[..n - 1]);
      if a.WorkerStep? && a.w == w {
        OwnNoted(c, s, w, a.flag, p);
      } else {
        OthersUnnoted(c, s, a, w, p);
      }
    }
  }

  // ---- what that means for the connections, the follow-ups and the passes ----

  /** When the connection of an accept line is closed: its service over, and the lifetime. */
  function Deadline(c: Config, row: ConnRow): int { row.doneNs + c.lifetimeMs * 1_000_000 }

  ghost predicate OpenedBy(c: Config, rows: seq<ConnRow>, x: OpenConn) {
    exists i :: 0 <= i < |rows| && rows[i].kind == AcceptRow && x == OpenConn(rows[i].connId, Deadline(c, rows[i]))
  }

  lemma {:induction false} OpenedMembers(c: Config, rows: seq<ConnRow>, x: OpenConn)
    ensures x in Opened(c, rows) <==> OpenedBy(c, rows, x)
  {
    if rows != [] {
      var front, last := rows[..|rows| - 1], rows[|rows| - 1];
      OpenedMembers(c, front, x);
      if OpenedBy(c, front, x) {
        var i :| 0 <= i < |front| && front[i].kind == AcceptRow && x == OpenConn(front[i].connId, Deadline(c, front[i]));
        assert rows[i] == front[i];
      }
      if OpenedBy(c, rows, x) {
        var i :| 0 <= i < |rows| && rows[i].kind == AcceptRow && x == OpenConn(rows[i].connId, Deadline(c, rows[i]));
        if i < |front| { assert front[i] == rows[i]; }
      }
    }
  }

  lemma OpenIsOpened(c: Config, me: Worker, p: Notes, clock: int, x: OpenConn)
    requires OpenOk(c, me, p, clock)
    ensures x in me.open ==> x in Opened(c, me.rows)
    ensures x in Opened(c, me.rows) && (p.expiry.LastExpiry? ==> x.deadline > p.expiry.now) ==> x in me.open
  {
    hide Opened, StillOpen;
    var rows := me.rows;
    if me.pc.Expire? {
      var Expire(now, i) := me.pc;
      StillOpenSome(Opened(c, rows), now);
      StillOpenSome(me.open[i..], now);
      assert x in me.open[..i] + StillOpen(me.open[i..], now) ==> x in me.open;
    } else if p.expiry.LastExpiry? {
      var k := p.expiry.logged;
      StillOpenSome(Opened(c, rows[..k]), p.expiry.now);
      OpenedConcat(c, rows[..k], rows[k..]);
      assert rows[..k] + rows[k..] == rows;
    }
  }

  /** In every run, at every moment: each connection a worker holds open was accepted, and its
      deadline is the end of its service plus the lifetime; and every accepted connection whose
      deadline is above the worker's last expiry reading is still held. */
  lemma OpenConnectionsOfARun(c: Config, clock: nat, schedule: seq<Action>, w: nat)
    requires ValidConfig(c) && w < c.W
    ensures var s, p := Run(c, Init(c, clock), schedule), NotesAfter(c, clock, schedule, |schedule|, w);
            && InShape(c, s)
            && var me := s.workers[w];
               && (forall x :: x in me.open ==> OpenedBy(c, me.rows, x))
               && forall i :: 0 <= i < |me.rows| && me.rows[i].kind == AcceptRow
                              && (p.expiry.LastExpiry? ==> Deadline(c, me.rows[i]) > p.expiry.now) ==>
                    OpenConn(me.rows[i].connId, Deadline(c, me.rows[i])) in me.open
  {
    hide Run, Init, NotesAfter, OpenOk, OpenedBy, Opened;
    assert schedule[..|schedule|] == schedule;
    NotesAreExact(c, clock, schedule, |schedule|, w);
    var s, p := Run(c, Init(c, clock), schedule), NotesAfter(c, clock, schedule, |schedule|, w);
    var me := s.workers[w];
    forall x | x in me.open ensures OpenedBy(c, me.rows, x) {
      OpenIsOpened(c, me, p, s.clock, x);
      OpenedMembers(c, me.rows, x);
    }
    forall i | 0 <= i < |me.rows| && me.rows[i].kind == AcceptRow
               && (p.expiry.LastExpiry? ==> Deadline(c, me.rows[i]) > p.expiry.now)
      ensures OpenConn(me.rows[i].connId, Deadline(c, me.rows[i])) in me.open
    {
      var x := OpenConn(me.rows[i].connId, Deadline(c, me.rows[i]));
      assert OpenedBy(c, me.rows, x) by { LineOpens(c, me.rows, i); }
      OpenedMembers(c, me.rows, x);
      OpenIsOpened(c, me, p, s.clock, x);
    }
  }

  lemma LineOpens(c: Config, rows: seq<ConnRow>, i: nat)
    requires i < |rows| && rows[i].kind == AcceptRow
    ensures OpenedBy(c, rows, OpenConn(rows[i].connId, Deadline(c, rows[i])))
  {
  }

  /** In every run a worker's follow-up lines are about the first of the connections it held open
      when its burst fired, in order and each once, and the rest of these are still to be served;
      each bears the time the burst fired and its cost. Without a burst there are none. */
  lemma FollowUpsOfARun(c: Config, clock: nat, schedule: seq<Action>, w: nat)
    requires ValidConfig(c) && w < c.W
    ensures var s, p := Run(c, Init(c, clock), schedule), NotesAfter(c, clock, schedule, |schedule|, w);
            && InShape(c, s)
            && var me := s.workers[w];
               if c.burst.Some? && p.burst.Fired?
               then
                 && BurstIds(me.rows) + BurstHand(me.pc) + me.backlog == p.burst.ids
                 && forall row :: row in me.rows && row.kind == BurstRow ==>
                      row.arrivalNs == p.burst.at && row.serviceUs == c.burst.value
               else BurstIds(me.rows) == [] && me.backlog == []
  {
    hide Run, Init, NotesAfter, OpenOk, BurstIds;
    assert schedule[..|schedule|] == schedule;
    NotesAreExact(c, clock, schedule, |schedule|, w);
  }

  /** The rows a series of field readings makes up. */
  function RowsRead(seen: seq<int>, n: nat): seq<Snapshot>
    requires 3 * n <= |seen|
  {
    seq(n, i requires 0 <= i < n => Snapshot(seen[3 * i], seen[3 * i + 1], seen[3 * i + 2]))
  }

  /** In every run what a pass publishes is Algorithm 1 applied to the clock it began with and to the
      fields it read from the table since, row by row. */
  lemma PublishIsOfWhatWasRead(c: Config, clock: nat, schedule: seq<Action>, w: nat, flag: bool)
    requires ValidConfig(c) && w < c.W
    requires var s := Run(c, Init(c, clock), schedule); InShape(c, s) && s.workers[w].pc.Publish?
    ensures var s, p := Run(c, Init(c, clock), schedule), NotesAfter(c, clock, schedule, |schedule|, w);
            && |p.seen| == 3 * c.W
            && Step(c, s, WorkerStep(w, flag)).msel == Schedule(RowsRead(p.seen, c.W), p.pass, c.threshold).bitmap
  {
    hide Run, Init, NotesAfter, OpenOk, BurstOk, Schedule, ServedOk, Pow2;
    assert schedule[..|schedule|] == schedule;
    NotesAreExact(c, clock, schedule, |schedule|, w);
    ReachableInv(c, clock, schedule);
    var s, p := Run(c, Init(c, clock), schedule), NotesAfter(c, clock, schedule, |schedule|, w);
    assert PassOk(s.workers[w].pc, s.clock, s.table);
    PublishedLow(c, s, w);
    assert s.workers[w].pc.got == RowsRead(p.seen, c.W);
  }
}
