/** The eBPF version's worker (hermes/src/worker.rs): its connection table, per-connection buffers
    and load counters, updated in place event by event. epoll, accept, read and write are decided
    by the environment, through parameters. */
module RealWorkers {
  import opened Words
  import opened Wire
  import opened Framing
  import Scheduler

  const MAX_SPINS := 1000

  // ---- writing a response ----

  /** One write(2): it takes some bytes (`more` beyond the first, if there is room), or would
      block, or fails. */
  datatype WriteOutcome = Wrote(more: nat) | Blocked | Broke

  type Sink = nat -> WriteOutcome

  function Taken(o: WriteOutcome, room: nat): (n: nat)
    ensures n <= room
  {
    if !o.Wrote? then 0 else if o.more < room then o.more + 1 else room
  }

  /** Bytes of a len-byte response on the wire after i writes. */
  function Sent(sink: Sink, i: nat, len: nat): (n: nat)
    ensures n <= len
  {
    if i == 0 then 0
    else
      var before := Sent(sink, i - 1, len);
      before + Taken(sink(i - 1), len - before)
  }

  /** How many of the first i writes would block. */
  function Blocks(sink: Sink, i: nat): nat {
    if i == 0 then 0 else Blocks(sink, i - 1) + (if sink(i - 1).Blocked? then 1 else 0)
  }

  ghost predicate NoFailure(sink: Sink, i: nat) {
    forall k :: 0 <= k < i ==> !sink(k).Broke?
  }

  /** The sink takes all len bytes before any failure and within MAX_SPINS blocked tries. */
  ghost predicate Completes(sink: Sink, len: nat) {
    exists i: nat :: CompletesAt(sink, len, i)
  }

  ghost predicate CompletesAt(sink: Sink, len: nat, i: nat) {
    Sent(sink, i, len) == len && NoFailure(sink, i) && Blocks(sink, i) <= MAX_SPINS
  }

  lemma {:induction false} WritesMonotone(sink: Sink, i: nat, j: nat, len: nat)
    requires i <= j
    ensures Sent(sink, i, len) <= Sent(sink, j, len) && Blocks(sink, i) <= Blocks(sink, j)
    decreases j
  {
    if i < j { WritesMonotone(sink, i, j - 1, len); }
  }

  /** A write that fails, or blocks once too often, before the end rules completion out. */
  lemma CannotComplete(sink: Sink, len: nat, i: nat)
    requires Sent(sink, i, len) < len
    requires sink(i).Broke? || (sink(i).Blocked? && Blocks(sink, i) == MAX_SPINS)
    ensures !Completes(sink, len)
  {
    forall j: nat ensures !CompletesAt(sink, len, j) {
      if j <= i {
        WritesMonotone(sink, j, i, len);
      } else {
        WritesMonotone(sink, i + 1, j, len);
      }
    }
  }

  /** Write a whole response, retrying while the socket is full; a failure may leave a prefix on
      the wire. */
  method WriteAll(buf: seq<Byte>, sink: Sink) returns (ok: bool, wire: seq<Byte>)
    ensures wire <= buf
    ensures ok <==> Completes(sink, |buf|)
    ensures ok <==> wire == buf
  {
    var off, spins := 0, 0;
    var i := 0;
    while off < |buf|
      invariant off <= |buf| && spins <= MAX_SPINS
      invariant off == Sent(sink, i, |buf|) && spins == Blocks(sink, i) && NoFailure(sink, i)
      decreases |buf| - off + (MAX_SPINS - spins)
    {
      var outcome := sink(i);
      if outcome.Wrote? {
        off := off + Taken(outcome, |buf| - off);
      } else {
        if outcome.Blocked? && spins < MAX_SPINS {
          spins := spins + 1;
        } else {
          CannotComplete(sink, |buf|, i);
          return false, buf[..off];
        }
      }
      i := i + 1;
    }
    assert CompletesAt(sink, |buf|, i);
    return true, buf[..off];
  }

  // ---- the connection table, as a value ----

  /** One accepted descriptor, and whether epoll could register it. */
  datatype Arriving = Arriving(fd: int, registered: bool)

  datatype Ready =
    | ListenerReady(arrivals: seq<Arriving>)
    | ConnReady(fd: int, hangup: bool, drain: Drain, sinks: nat -> Sink)

  datatype Loop = Loop(conns: map<int, seq<Byte>>, pending: int, accumulated: int)

  ghost function Delivers(sinks: nat -> Sink): nat -> bool {
    (k: nat) => Completes(sinks(k), RESPONSE_LEN)
  }

  function Accepted(l: Loop, arrivals: seq<Arriving>): Loop
    decreases |arrivals|
  {
    if arrivals == [] then l
    else
      var a := arrivals[0];
      var l1 := if a.registered then l.(conns := l.conns[a.fd := []], accumulated := l.accumulated + 1) else l;
      Accepted(l1, arrivals[1..])
  }

  ghost function Handled(l: Loop, ev: Ready, me: U32): (Loop, seq<seq<Byte>>)
    requires ev.ConnReady?
  {
    if ev.fd in l.conns then
      var s := AfterEvent(l.conns[ev.fd], ConnEvent(ev.hangup, ev.drain, Delivers(ev.sinks)), me);
      if s.close then (l.(conns := l.conns - {ev.fd}, accumulated := l.accumulated - 1), s.sent)
      else (l.(conns := l.conns[ev.fd := s.rest]), s.sent)
    else if ev.hangup || !ev.drain.end.WouldBlock? then (l.(accumulated := l.accumulated - 1), [])
    else (l, [])
  }

  /** One entry of a batch, counted off when done. */
  ghost function EventStep(l: Loop, ev: Ready, me: U32): Loop {
    var l1 := if ev.ListenerReady? then Accepted(l, ev.arrivals) else Handled(l, ev, me).0;
    l1.(pending := l1.pending - 1)
  }

  ghost function AfterBatch(l: Loop, events: seq<Ready>, me: U32): Loop
    decreases |events|
  {
    if events == [] then l else EventStep(AfterBatch(l, events[..|events| - 1], me), events[|events| - 1], me)
  }

  /** The responses entry k of a batch sends. */
  ghost function ResponsesAt(l: Loop, events: seq<Ready>, me: U32, k: nat): seq<seq<Byte>>
    requires k < |events|
  {
    if events[k].ListenerReady? then [] else Handled(AfterBatch(l, events[..k], me), events[k], me).1
  }

  // ---- what the kernel promises ----

  /** accept4 returns descriptors that are not open. */
  ghost predicate FreshArrivals(conns: map<int, seq<Byte>>, arrivals: seq<Arriving>)
    decreases |arrivals|
  {
    arrivals == []
    || (arrivals[0].fd !in conns
        && FreshArrivals(if arrivals[0].registered then conns[arrivals[0].fd := []] else conns, arrivals[1..]))
  }

  /** epoll reports each registered connection at most once in a batch. */
  ghost predicate OncePerBatch(events: seq<Ready>) {
    forall i, j :: 0 <= i < j < |events| && events[i].ConnReady? && events[j].ConnReady? ==> events[i].fd != events[j].fd
  }

  /** At the start of the batch every reported connection is in the table, and accepts are fresh
      whenever they happen. */
  ghost predicate KernelFollows(l: Loop, events: seq<Ready>, me: U32) {
    && OncePerBatch(events)
    && (forall i :: 0 <= i < |events| && events[i].ConnReady? ==> events[i].fd in l.conns)
    && (forall i :: 0 <= i < |events| && events[i].ListenerReady? ==>
          FreshArrivals(AfterBatch(l, events[..i], me).conns, events[i].arrivals))
  }

  // ---- the counters ----

  lemma {:induction false} AcceptedCounts(l: Loop, arrivals: seq<Arriving>)
    requires FreshArrivals(l.conns, arrivals)
    ensures var l' := Accepted(l, arrivals);
            && l'.accumulated - |l'.conns| == l.accumulated - |l.conns|
            && l'.pending == l.pending && l.conns.Keys <= l'.conns.Keys
    decreases |arrivals|
  {
    if arrivals != [] {
      var a := arrivals[0];
      var l1 := if a.registered then l.(conns := l.conns[a.fd := []], accumulated := l.accumulated + 1) else l;
      if a.registered { assert l1.conns.Keys == l.conns.Keys + {a.fd}; }
      AcceptedCounts(l1, arrivals[1..]);
    }
  }

  lemma HandledCounts(l: Loop, ev: Ready, me: U32)
    requires ev.ConnReady? && ev.fd in l.conns
    ensures var l' := Handled(l, ev, me).0;
            && l'.accumulated - |l'.conns| == l.accumulated - |l.conns|
            && l'.pending == l.pending && l.conns.Keys - {ev.fd} <= l'.conns.Keys
  {
    hide AfterEvent;
    var l' := Handled(l, ev, me).0;
    if ev.fd in l'.conns {
      assert l'.conns.Keys == l.conns.Keys;
    } else {
      assert l'.conns.Keys == l.conns.Keys - {ev.fd};
    }
  }

  // ---- what one entry of a batch does ----

  function RegisteredIn(arrivals: seq<Arriving>): nat {
    if arrivals == [] then 0 else (if arrivals[0].registered then 1 else 0) + RegisteredIn(arrivals[1..])
  }

  ghost predicate Registers(arrivals: seq<Arriving>, fd: int) {
    exists i :: 0 <= i < |arrivals| && arrivals[i].registered && arrivals[i].fd == fd
  }

  lemma {:induction false} AcceptedMeaning(l: Loop, arrivals: seq<Arriving>)
    requires FreshArrivals(l.conns, arrivals)
    ensures var l' := Accepted(l, arrivals);
            && (forall fd :: fd in l'.conns <==> fd in l.conns || Registers(arrivals, fd))
            && (forall fd :: fd in l'.conns ==> l'.conns[fd] == if fd in l.conns then l.conns[fd] else [])
            && l'.accumulated == l.accumulated + RegisteredIn(arrivals) && l'.pending == l.pending
    decreases |arrivals|
  {
    if arrivals != [] {
      var a, rest := arrivals[0], arrivals[1..];
      var l1 := if a.registered then l.(conns := l.conns[a.fd := []], accumulated := l.accumulated + 1) else l;
      AcceptedMeaning(l1, rest);
      forall fd ensures Registers(arrivals, fd) <==> (a.registered && a.fd == fd) || Registers(rest, fd) {
        RegistersUnfolds(arrivals, fd);
      }
    }
  }

  lemma RegistersUnfolds(arrivals: seq<Arriving>, fd: int)
    requires arrivals != []
    ensures Registers(arrivals, fd) <==> (arrivals[0].registered && arrivals[0].fd == fd) || Registers(arrivals[1..], fd)
  {
    if Registers(arrivals[1..], fd) {
      var i :| 0 <= i < |arrivals| - 1 && arrivals[1..][i].registered && arrivals[1..][i].fd == fd;
      assert arrivals[i + 1].fd == fd;
    }
    if Registers(arrivals, fd) && !(arrivals[0].registered && arrivals[0].fd == fd) {
      var i :| 0 <= i < |arrivals| && arrivals[i].registered && arrivals[i].fd == fd;
      assert arrivals[1..][i - 1].fd == fd;
    }
  }

  /** A listener entry, with fresh descriptors: a connection is in the table afterwards exactly if it
      was before or an arrival registered it, a new one with nothing buffered and an old one as it
      was; the connection count grows by the number registered, and the entry is counted off. */
  lemma ListenerEventMeaning(l: Loop, ev: Ready, me: U32)
    requires ev.ListenerReady? && FreshArrivals(l.conns, ev.arrivals)
    ensures var l' := EventStep(l, ev, me);
            && (forall fd :: fd in l'.conns <==> fd in l.conns || Registers(ev.arrivals, fd))
            && (forall fd :: fd in l'.conns ==> l'.conns[fd] == if fd in l.conns then l.conns[fd] else [])
            && l'.accumulated == l.accumulated + RegisteredIn(ev.arrivals)
            && l'.pending == l.pending - 1
  {
    AcceptedMeaning(l, ev.arrivals);
  }

  /** The connection stays after this event: no hang-up, drained to would-block, no bad frame among
      what is then buffered, and every good frame's response written. */
  ghost predicate Stays(buf: seq<Byte>, ev: Ready)
    requires ev.ConnReady?
  {
    && !ev.hangup && ev.drain.end.WouldBlock? && !Broken(buf + Concat(ev.drain.chunks))
    && forall k :: 0 <= k < GoodFrames(buf + Concat(ev.drain.chunks)) ==> Completes(ev.sinks(k), RESPONSE_LEN)
  }

  /** A connection entry: a known connection is still there afterwards exactly if it stays, with its
      leftover; otherwise it is gone and the count one lower. An unknown one changes no connection,
      but a closing event still lowers the count. Other connections are as they were, and the entry
      is counted off. */
  lemma ConnEventMeaning(l: Loop, ev: Ready, me: U32)
    requires ev.ConnReady?
    ensures var l' := EventStep(l, ev, me);
            && l'.pending == l.pending - 1
            && if ev.fd in l.conns
               then
                 if Stays(l.conns[ev.fd], ev)
                 then && l'.conns == l.conns[ev.fd := Leftover(l.conns[ev.fd] + Concat(ev.drain.chunks))]
                      && l'.accumulated == l.accumulated
                 else && ev.fd !in l'.conns && l'.conns == l.conns - {ev.fd}
                      && l'.accumulated == l.accumulated - 1
               else && l'.conns == l.conns
                    && l'.accumulated == l.accumulated - (if ev.hangup || !ev.drain.end.WouldBlock? then 1 else 0)
  {
    hide AfterEvent, Leftover, GoodFrames, Completes, Stays;
    if ev.fd in l.conns { StaysIffOpen(l.conns[ev.fd], ev, me); }
  }

  lemma StaysIffOpen(buf: seq<Byte>, ev: Ready, me: U32)
    requires ev.ConnReady?
    ensures var s := AfterEvent(buf, ConnEvent(ev.hangup, ev.drain, Delivers(ev.sinks)), me);
            && (s.close <==> !Stays(buf, ev))
            && (Stays(buf, ev) ==> s.rest == Leftover(buf + Concat(ev.drain.chunks)))
  {
    hide AfterEvent, Leftover, GoodFrames, Completes, Broken, Concat;
    var ce := ConnEvent(ev.hangup, ev.drain, Delivers(ev.sinks));
    EventMeaning(buf, ce, me);
    assert forall k: nat :: ce.delivers(k) == Completes(ev.sinks(k), RESPONSE_LEN);
  }

  /** And it sends: the replies to what is then buffered, up to the first response that cannot be
      written, unless it was hung up or drained to an end; nothing on an unknown descriptor. */
  lemma ConnEventSends(l: Loop, ev: Ready, me: U32)
    requires ev.ConnReady?
    ensures Handled(l, ev, me).1 ==
            if ev.fd !in l.conns || ev.hangup || !ev.drain.end.WouldBlock? then []
            else
              var all := l.conns[ev.fd] + Concat(ev.drain.chunks);
              Replies(all, me)[..Delivered(Delivers(ev.sinks), 0, GoodFrames(all))]
  {
    hide AfterEvent, Leftover, Completes;
    if ev.fd in l.conns { EventMeaning(l.conns[ev.fd], AsConnEvent(ev), me); }
  }

  /** A batch is its entries one after the other. */
  lemma {:induction false} BatchSplits(l: Loop, a: seq<Ready>, b: seq<Ready>, me: U32)
    ensures AfterBatch(l, a + b, me) == AfterBatch(AfterBatch(l, a, me), b, me)
    decreases |b|
  {
    hide EventStep;
    if b == [] {
      assert a + b == a;
    } else {
      BatchSplits(l, a, b[..|b| - 1], me);
      assert (a + b)[..|a + b| - 1] == a + b[..|b| - 1] && (a + b)[|a + b| - 1] == b[|b| - 1];
    }
  }

  lemma BatchOfOne(l: Loop, ev: Ready, me: U32)
    ensures AfterBatch(l, [], me) == l && AfterBatch(l, [ev], me) == EventStep(l, ev, me)
  {
    hide EventStep;
    assert [ev][..0] == [];
  }

  /** A socket that blocks n times and then takes everything is written to exactly if n is at most
      1000. */
  lemma ThousandSpins(n: nat, len: nat)
    requires len > 0
    ensures Completes((i: nat) => if i < n then Blocked else Wrote(len), len) <==> n <= 1000
  {
    var sink: Sink := (i: nat) => if i < n then Blocked else Wrote(len);
    if n <= 1000 {
      OnlyBlocks(sink, n, len, n);
      assert CompletesAt(sink, len, n + 1);
    } else {
      OnlyBlocks(sink, 1000, len, n);
      CannotComplete(sink, len, 1000);
    }
  }

  lemma {:induction false} OnlyBlocks(sink: Sink, i: nat, len: nat, n: nat)
    requires i <= n && forall k: nat :: sink(k) == if k < n then Blocked else Wrote(len)
    ensures Sent(sink, i, len) == 0 && Blocks(sink, i) == i
  {
    if i > 0 { OnlyBlocks(sink, i - 1, len, n); }
  }

  /** The connection count and the table part ways exactly when an unknown descriptor is closed. */
  lemma CountsPartIff(l: Loop, ev: Ready, me: U32)
    requires ev.ConnReady?
    ensures var l' := Handled(l, ev, me).0;
            l'.accumulated - |l'.conns| == l.accumulated - |l.conns|
            <==> ev.fd in l.conns || (!ev.hangup && ev.drain.end.WouldBlock?)
  {
    if ev.fd in l.conns { HandledCounts(l, ev, me); }
  }

  /** At every event boundary of a batch of n, after k events: pending is what remains, the
      connection count is the size of the table, and the connections still to be reported are
      still there; failed registrations and closes included. */
  lemma {:induction false} CountersAtEveryBoundary(l: Loop, events: seq<Ready>, me: U32, k: nat)
    requires KernelFollows(l, events, me) && k <= |events|
    requires l.pending == |events| && l.accumulated == |l.conns|
    ensures var l' := AfterBatch(l, events[..k], me);
            && l'.pending == |events| - k
            && l'.accumulated == |l'.conns|
            && forall i :: k <= i < |events| && events[i].ConnReady? ==> events[i].fd in l'.conns
  {
    hide Handled, Accepted, FreshArrivals;
    if k == 0 {
      assert events[..0] == [];
    } else {
      CountersAtEveryBoundary(l, events, me, k - 1);
      var before, ev := AfterBatch(l, events[..k - 1], me), events[k - 1];
      assert events[..k][..k - 1] == events[..k - 1] && events[..k][k - 1] == ev;
      if ev.ListenerReady? {
        AcceptedCounts(before, ev.arrivals);
      } else {
        HandledCounts(before, ev, me);
      }
    }
  }

  // ---- one connection among many ----

  ghost function AsConnEvent(ev: Ready): ConnEvent
    requires ev.ConnReady?
  {
    ConnEvent(ev.hangup, ev.drain, Delivers(ev.sinks))
  }

  /** The batch entries that concern one connection. */
  ghost function EventsOf(events: seq<Ready>, fd: int): seq<ConnEvent>
    decreases |events|
  {
    if events == [] then []
    else
      var last := events[|events| - 1];
      EventsOf(events[..|events| - 1], fd)
      + (if last.ConnReady? && last.fd == fd then [AsConnEvent(last)] else [])
  }

  /** The responses a batch sends on one connection. */
  ghost function ResponsesOn(l: Loop, events: seq<Ready>, me: U32, fd: int): seq<seq<Byte>>
    decreases |events|
  {
    if events == [] then []
    else
      var front, last := events[..|events| - 1], events[|events| - 1];
      ResponsesOn(l, front, me, fd)
      + (if last.ConnReady? && last.fd == fd then Handled(AfterBatch(l, front, me), last, me).1 else [])
  }

  /** They are the entries' own responses, one after the other. */
  lemma ResponsesOnGrow(l: Loop, events: seq<Ready>, me: U32, fd: int, k: nat)
    requires k < |events|
    ensures ResponsesOn(l, [], me, fd) == []
    ensures ResponsesOn(l, events[..k + 1], me, fd) ==
            ResponsesOn(l, events[..k], me, fd)
            + (if events[k].ConnReady? && events[k].fd == fd then ResponsesAt(l, events, me, k) else [])
    ensures events[k].ListenerReady? ==> ResponsesAt(l, events, me, k) == []
  {
    hide Handled;
    assert events[..k + 1][..k] == events[..k] && events[..k + 1][k] == events[k];
  }

  lemma {:induction false} AfterEventsConcat(c: Conn, a: seq<ConnEvent>, b: seq<ConnEvent>, me: U32)
    ensures AfterEvents(c, a + b, me) == AfterEvents(AfterEvents(c, a, me), b, me)
    decreases |a|
  {
    hide AfterEvent;
    if a == [] {
      assert a + b == b;
    } else if c.open {
      var s := AfterEvent(c.buf, a[0], me);
      AfterEventsConcat(Conn(s.rest, c.sent + s.sent, !s.close), a[1..], b, me);
      assert (a + b)[0] == a[0] && (a + b)[1..] == a[1..] + b;
    }
  }

  lemma {:induction false} AcceptedLeaves(l: Loop, arrivals: seq<Arriving>, fd: int)
    requires FreshArrivals(l.conns, arrivals) && fd in l.conns
    ensures fd in Accepted(l, arrivals).conns && Accepted(l, arrivals).conns[fd] == l.conns[fd]
    decreases |arrivals|
  {
    if arrivals != [] {
      var a := arrivals[0];
      AcceptedLeaves(if a.registered then l.(conns := l.conns[a.fd := []], accumulated := l.accumulated + 1) else l,
                     arrivals[1..], fd);
    }
  }

  /** The connection stands as its own events left it. */
  ghost predicate Tracks(c: Conn, l: Loop, fd: int) {
    c.open ==> fd in l.conns && l.conns[fd] == c.buf
  }

  lemma OwnEventTracks(c: Conn, l: Loop, ev: Ready, me: U32)
    requires ev.ConnReady? && c.open && Tracks(c, l, ev.fd)
    ensures var c' := AfterEvents(c, [AsConnEvent(ev)], me);
            Tracks(c', EventStep(l, ev, me), ev.fd) && c'.sent == c.sent + Handled(l, ev, me).1
  {
    hide AfterEvent, Delivers;
    OneEvent(c, AsConnEvent(ev), me);
  }

  lemma OtherEventTracks(c: Conn, l: Loop, ev: Ready, me: U32, fd: int)
    requires Tracks(c, l, fd)
    requires if ev.ConnReady? then ev.fd != fd else FreshArrivals(l.conns, ev.arrivals)
    ensures Tracks(c, EventStep(l, ev, me), fd)
  {
    hide AfterEvent, Accepted, FreshArrivals, Delivers;
    if c.open && ev.ListenerReady? { AcceptedLeaves(l, ev.arrivals, fd); }
  }

  lemma EventsOfLast(l: Loop, events: seq<Ready>, me: U32, fd: int, k: nat)
    requires 0 < k <= |events|
    ensures var front, ev, own := events[..k - 1], events[k - 1], events[k - 1].ConnReady? && events[k - 1].fd == fd;
            && AfterBatch(l, events[..k], me) == EventStep(AfterBatch(l, front, me), ev, me)
            && EventsOf(events[..k], fd) == (if own then EventsOf(front, fd) + [AsConnEvent(ev)] else EventsOf(front, fd))
            && ResponsesOn(l, events[..k], me, fd) ==
               if own then ResponsesOn(l, front, me, fd) + Handled(AfterBatch(l, front, me), ev, me).1
               else ResponsesOn(l, front, me, fd)
  {
    hide Handled, EventStep, AsConnEvent;
    var e, r := EventsOf(events[..k - 1], fd), ResponsesOn(l, events[..k - 1], me, fd);
    assert e + [] == e && r + [] == r;
    assert events[..k][..k - 1] == events[..k - 1] && events[..k][k - 1] == events[k - 1];
  }

  /** Whatever else a batch reports, an open connection sees exactly its own events: it sends what
      they make it send, and while it stays open its buffer is what they leave. */
  lemma {:induction false} BatchActsPerConnection(l: Loop, events: seq<Ready>, me: U32, fd: int, k: nat)
    requires KernelFollows(l, events, me) && k <= |events| && fd in l.conns
    ensures var c := AfterEvents(Conn(l.conns[fd], [], true), EventsOf(events[..k], fd), me);
            && ResponsesOn(l, events[..k], me, fd) == c.sent
            && Tracks(c, AfterBatch(l, events[..k], me), fd)
            && (!c.open ==> exists i :: 0 <= i < k && events[i].ConnReady? && events[i].fd == fd)
  {
    hide AfterEvents, EventStep, Handled, FreshArrivals, Tracks, EventsOf, ResponsesOn;
    var c0 := Conn(l.conns[fd], [], true);
    if k == 0 {
      NoEvents(l, events, me, fd);
    } else {
      BatchActsPerConnection(l, events, me, fd, k - 1);
      EventsOfLast(l, events, me, fd, k);
      var front, ev := events[..k - 1], events[k - 1];
      var before, c := AfterBatch(l, front, me), AfterEvents(c0, EventsOf(front, fd), me);
      if ev.ConnReady? && ev.fd == fd {
        AfterEventsConcat(c0, EventsOf(front, fd), [AsConnEvent(ev)], me);
        assert c.open;
        OwnEventTracks(c, before, ev, me);
      } else {
        OtherEventTracks(c, before, ev, me, fd);
      }
    }
  }

  lemma NoEvents(l: Loop, events: seq<Ready>, me: U32, fd: int)
    requires fd in l.conns
    ensures var c0 := Conn(l.conns[fd], [], true);
            && EventsOf(events[..0], fd) == [] && AfterEvents(c0, EventsOf(events[..0], fd), me) == c0
            && ResponsesOn(l, events[..0], me, fd) == [] && Tracks(c0, AfterBatch(l, events[..0], me), fd)
  {
    assert events[..0] == [];
  }

  lemma OneEvent(c: Conn, ev: ConnEvent, me: U32)
    ensures AfterEvents(c, [ev], me) ==
            if !c.open then c
            else var s := AfterEvent(c.buf, ev, me); Conn(s.rest, c.sent + s.sent, !s.close)
  {
    hide AfterEvent;
    assert [ev][1..] == [];
  }

  /** Serving frame by frame. */
  lemma ServeUnfolds(buf: seq<Byte>, me: U32, delivers: nat -> bool, k: nat)
    ensures |buf| < REQUEST_HEADER_LEN ==> Serve(buf, me, delivers, k) == Served(buf, [], false)
    ensures |buf| >= REQUEST_HEADER_LEN ==>
              var frame, rest := buf[..REQUEST_HEADER_LEN], buf[REQUEST_HEADER_LEN..];
              var later := Serve(rest, me, delivers, k + 1);
              Serve(buf, me, delivers, k) ==
              if DecodeRequest(frame).None? || !delivers(k) then Served(rest, [], true)
              else Served(later.rest, [Reply(frame, me)] + later.sent, later.close)
  {
  }

  // ---- the worker ----

  /** Whether a pass of the loop was the last, and why. */
  datatype LoopEnd = GoesOn | Stopped | WaitFailed

  class RealWorker {
    const me: U32
    var conns: map<int, seq<Byte>>
    var pendingEvents: int
    var accumulatedConns: int
    var lastLoopEntry: int
    var hangPending: bool

    ghost function State(): Loop
      reads this
    {
      Loop(conns, pendingEvents, accumulatedConns)
    }

    constructor (me: U32, hang: bool)
      ensures this.me == me && State() == Loop(map[], 0, 0) && hangPending == hang
    {
      this.me := me;
      conns := map[];
      pendingEvents, accumulatedConns, lastLoopEntry := 0, 0, 0;
      hangPending := hang;
    }

    /** Accept until nothing is waiting. */
    method AcceptAll(arrivals: seq<Arriving>)
      modifies this`conns, this`accumulatedConns
      ensures State() == Accepted(old(State()), arrivals)
    {
      var i := 0;
      assert arrivals[0..] == arrivals;
      while i < |arrivals|
        invariant i <= |arrivals|
        invariant Accepted(State(), arrivals[i..]) == Accepted(old(State()), arrivals)
      {
        var a := arrivals[i];
        assert arrivals[i..][0] == a && arrivals[i..][1..] == arrivals[i + 1..];
        i := i + 1;
        accumulatedConns := accumulatedConns + 1;
        if !a.registered {
          accumulatedConns := accumulatedConns - 1;
          continue;
        }
        conns := conns[a.fd := []];
      }
      assert arrivals[i..] == [];
    }

    /** Read one connection until the socket is drained; bytes for an unknown descriptor are
        dropped. */
    method DrainReads(fd: int, drain: Drain) returns (close: bool)
      modifies this`conns
      ensures close <==> !drain.end.WouldBlock?
      ensures conns == if fd in old(conns) then old(conns)[fd := old(conns)[fd] + Concat(drain.chunks)] else old(conns)
    {
      var i := 0;
      ghost var before := if fd in conns then conns[fd] else [];
      assert drain.chunks[0..] == drain.chunks;
      while i < |drain.chunks|
        invariant i <= |drain.chunks|
        invariant fd in conns <==> fd in old(conns)
        invariant fd in conns ==> conns == old(conns)[fd := conns[fd]]
        invariant fd in conns ==> conns[fd] + Concat(drain.chunks[i..]) == before + Concat(drain.chunks)
        invariant fd !in conns ==> conns == old(conns)
      {
        assert drain.chunks[i..][1..] == drain.chunks[i + 1..];
        if fd in conns {
          conns := conns[fd := conns[fd] + drain.chunks[i]];
        }
        i := i + 1;
      }
      assert drain.chunks[i..] == [];
      assert fd in conns ==> conns[fd] + [] == conns[fd];
      close := !drain.end.WouldBlock?;
    }

    /** Serve every complete request buffered for one connection; nothing for an unknown one. */
    method ServeBuffered(fd: int, sinks: nat -> Sink) returns (close: bool, responses: seq<seq<Byte>>)
      modifies this`conns
      ensures fd !in old(conns) ==> !close && responses == [] && conns == old(conns)
      ensures fd in old(conns) ==>
                var s := Serve(old(conns)[fd], me, Delivers(sinks), 0);
                close == s.close && responses == s.sent && conns == old(conns)[fd := s.rest]
    {
      hide DecodeRequest, ResponseBytes, Completes, Serve;
      close, responses := false, [];
      if fd !in conns { return; }
      ghost var deliver := Delivers(sinks);
      ghost var all := Serve(conns[fd], me, deliver, 0);
      while |conns[fd]| >= REQUEST_HEADER_LEN
        invariant fd in conns && conns == old(conns)[fd := conns[fd]]
        invariant var s := Serve(conns[fd], me, deliver, |responses|);
                  all == Served(s.rest, responses + s.sent, s.close)
        decreases |conns[fd]|
      {
        ServeUnfolds(conns[fd], me, deliver, |responses|);
        var header := conns[fd][..REQUEST_HEADER_LEN];
        conns := conns[fd := conns[fd][REQUEST_HEADER_LEN..]];
        var request := DecodeRequest(header);
        if request.None? {
          close := true;
          break;
        }
        var resp := ResponseBytes(Response(request.value.id, me, request.value.sendNs));
        assert resp == Reply(header, me);
        var ok, _ := WriteAll(resp, sinks(|responses|));
        assert ok == deliver(|responses|);
        if !ok {
          close := true;
          break;
        }
        responses := responses + [resp];
      }
      if !close { ServeUnfolds(conns[fd], me, deliver, |responses|); }
    }

    /** One readiness event on a connection. */
    method HandleConnEvent(ev: Ready) returns (responses: seq<seq<Byte>>)
      requires ev.ConnReady?
      modifies this`conns, this`accumulatedConns
      ensures (State(), responses) == Handled(old(State()), ev, me)
    {
      var close := ev.hangup;
      responses := [];
      if !close {
        close := DrainReads(ev.fd, ev.drain);
      }
      if !close {
        close, responses := ServeBuffered(ev.fd, ev.sinks);
      }
      if ev.fd in conns {
        assert conns == old(conns)[ev.fd := conns[ev.fd]];
      }
      if close {
        assert conns - {ev.fd} == old(conns) - {ev.fd};
        assert ev.fd !in old(conns) ==> old(conns) - {ev.fd} == old(conns);
        conns := conns - {ev.fd};
        accumulatedConns := accumulatedConns - 1;
      }
    }

    /** Count a batch, handle its entries in order, and count each one off. */
    method RunBatch(events: seq<Ready>) returns (log: seq<seq<seq<Byte>>>)
      modifies this`conns, this`accumulatedConns, this`pendingEvents
      ensures State() == AfterBatch(old(State()).(pending := old(pendingEvents) + |events|), events, me)
      ensures |log| == |events|
      ensures forall k :: 0 <= k < |events| ==>
                log[k] == ResponsesAt(old(State()).(pending := old(pendingEvents) + |events|), events, me, k)
    {
      hide Handled, Accepted;
      pendingEvents := pendingEvents + |events|;
      ghost var l := State();
      log := [];
      for k := 0 to |events|
        invariant State() == AfterBatch(l, events[..k], me) && |log| == k
        invariant forall j :: 0 <= j < k ==> log[j] == ResponsesAt(l, events, me, j)
      {
        assert events[..k + 1][..k] == events[..k];
        var responses := [];
        if events[k].ListenerReady? {
          AcceptAll(events[k].arrivals);
        } else {
          responses := HandleConnEvent(events[k]);
        }
        pendingEvents := pendingEvents - 1;
        log := log + [responses];
      }
      assert events[..|events|] == events;
    }

    /** One pass of the event loop. `wait` is what epoll_wait reports, None if it fails, which ends
        the loop; `passTable` and `passNow` are what the scheduler reads. */
    method Iteration(stop: bool, now: int, hangDue: bool, wait: Option<seq<Ready>>, runsScheduler: bool,
                     passTable: seq<Scheduler.Snapshot>, passNow: int)
      returns (end: LoopEnd, published: Option<nat>)
      modifies this
      ensures end.Stopped? <==> stop
      ensures end.WaitFailed? <==> !stop && !(old(hangPending) && hangDue) && wait.None?
      ensures stop ==> State() == old(State()) && hangPending == old(hangPending) && lastLoopEntry == old(lastLoopEntry)
      ensures !stop ==> lastLoopEntry == now && hangPending == (old(hangPending) && !hangDue)
      ensures stop || (old(hangPending) && hangDue) || wait.None? ==> State() == old(State()) && published == None
      ensures !stop && !(old(hangPending) && hangDue) && wait.Some? ==>
                var events := wait.value;
                && State() == AfterBatch(old(State()).(pending := old(pendingEvents) + |events|), events, me)
                && published == if runsScheduler
                                then Some(Scheduler.Schedule(passTable, passNow, Scheduler.HANG_THRESHOLD_NS).bitmap)
                                else None
    {
      hide AfterBatch, Handled, KernelFollows, Scheduler.Schedule;
      end, published := GoesOn, None;
      if stop { return Stopped, None; }
      lastLoopEntry := now;
      if hangPending && hangDue {
        hangPending := false;
        return;
      }
      if wait.None? { return WaitFailed, None; }
      var _ := RunBatch(wait.value);
      if runsScheduler {
        published := Some(Scheduler.Schedule(passTable, passNow, Scheduler.HANG_THRESHOLD_NS).bitmap);
      }
    }
  }
}
