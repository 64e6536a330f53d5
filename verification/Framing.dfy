/** How a worker turns a byte stream into responses (hermes/src/worker.rs): each readiness event
    drains some reads into the connection's buffer and then serves every complete 24-byte frame.
    However the stream is cut into reads and events, the responses are those of the stream. */
module Framing {
  import opened Words
  import opened Wire

  datatype DrainEnd = WouldBlock | PeerClosed | ReadFailed

  /** The reads of one event: the data they returned, and how the last one ended. */
  datatype Drain = Drain(chunks: seq<seq<Byte>>, end: DrainEnd)

  /** A readiness event as the environment decides it: whether it carries a hang-up or error flag,
      what the reads return, and which responses can be written. */
  datatype ConnEvent = ConnEvent(hangup: bool, drain: Drain, delivers: nat -> bool)

  function Concat(chunks: seq<seq<Byte>>): seq<Byte> {
    if chunks == [] then [] else chunks[0] + Concat(chunks[1..])
  }

  /** The outcome of serving: what stays buffered, the responses sent, whether to close. */
  datatype Served = Served(rest: seq<Byte>, sent: seq<seq<Byte>>, close: bool)

  function Reply(frame: seq<Byte>, me: U32): seq<Byte>
    requires |frame| == REQUEST_HEADER_LEN
  {
    match DecodeRequest(frame)
    case Some(r) => ResponseBytes(Response(r.id, me, r.sendNs))
    case None => []
  }

  /** Serve every complete frame of the buffer, stopping at a bad magic or a failed write. */
  function Serve(buf: seq<Byte>, me: U32, delivers: nat -> bool, k: nat): Served
    decreases |buf|
  {
    if |buf| < REQUEST_HEADER_LEN then Served(buf, [], false)
    else
      var frame, rest := buf[..REQUEST_HEADER_LEN], buf[REQUEST_HEADER_LEN..];
      if DecodeRequest(frame).None? || !delivers(k) then Served(rest, [], true)
      else
        var later := Serve(rest, me, delivers, k + 1);
        later.(sent := [Reply(frame, me)] + later.sent)
  }

  /** One event on a connection with `buf` left over. */
  function AfterEvent(buf: seq<Byte>, ev: ConnEvent, me: U32): Served {
    if ev.hangup then Served(buf, [], true)
    else if !ev.drain.end.WouldBlock? then Served(buf + Concat(ev.drain.chunks), [], true)
    else Serve(buf + Concat(ev.drain.chunks), me, ev.delivers, 0)
  }

  /** A connection's life: bytes not yet served, responses so far, still open. */
  datatype Conn = Conn(buf: seq<Byte>, sent: seq<seq<Byte>>, open: bool)

  function AfterEvents(c: Conn, events: seq<ConnEvent>, me: U32): Conn
    decreases |events|
  {
    if events == [] || !c.open then c
    else
      var s := AfterEvent(c.buf, events[0], me);
      AfterEvents(Conn(s.rest, c.sent + s.sent, !s.close), events[1..], me)
  }

  // ---- the stream alone ----

  /** How many leading frames of the stream decode. */
  function GoodFrames(stream: seq<Byte>): nat
    decreases |stream|
  {
    if |stream| < REQUEST_HEADER_LEN || DecodeRequest(stream[..REQUEST_HEADER_LEN]).None? then 0
    else 1 + GoodFrames(stream[REQUEST_HEADER_LEN..])
  }

  lemma {:induction false} GoodFramesFit(stream: seq<Byte>)
    ensures REQUEST_HEADER_LEN * GoodFrames(stream) <= |stream|
    decreases |stream|
  {
    if GoodFrames(stream) > 0 { GoodFramesFit(stream[REQUEST_HEADER_LEN..]); }
  }

  /** Frame k of the stream. */
  function Frame(stream: seq<Byte>, k: nat): seq<Byte>
    requires REQUEST_HEADER_LEN * (k + 1) <= |stream|
  {
    stream[REQUEST_HEADER_LEN * k..REQUEST_HEADER_LEN * k + REQUEST_HEADER_LEN]
  }

  /** The replies to the frames before the first bad one. */
  function Replies(stream: seq<Byte>, me: U32): (r: seq<seq<Byte>>)
    ensures |r| == GoodFrames(stream)
    decreases |stream|
  {
    if GoodFrames(stream) == 0 then []
    else [Reply(stream[..REQUEST_HEADER_LEN], me)] + Replies(stream[REQUEST_HEADER_LEN..], me)
  }

  /** A complete frame with a bad magic follows the good ones. */
  predicate Broken(stream: seq<Byte>) {
    REQUEST_HEADER_LEN * (GoodFrames(stream) + 1) <= |stream|
  }

  /** The bytes after the good frames. */
  function Leftover(stream: seq<Byte>): seq<Byte> {
    GoodFramesFit(stream);
    stream[REQUEST_HEADER_LEN * GoodFrames(stream)..]
  }

  lemma FrameShifts(stream: seq<Byte>, k: nat)
    requires REQUEST_HEADER_LEN * (k + 2) <= |stream|
    ensures Frame(stream, k + 1) == Frame(stream[REQUEST_HEADER_LEN..], k)
  {
    var at := REQUEST_HEADER_LEN * k;
    assert REQUEST_HEADER_LEN * (k + 1) == REQUEST_HEADER_LEN + at;
    SliceOfDrop(stream, REQUEST_HEADER_LEN, at, at + REQUEST_HEADER_LEN);
  }

  lemma SliceOfDrop(s: seq<Byte>, i: nat, a: nat, b: nat)
    requires a <= b && i + b <= |s|
    ensures s[i..][a..b] == s[i + a..i + b]
  {
  }

  lemma LeftoverUnfold(stream: seq<Byte>)
    requires GoodFrames(stream) > 0
    ensures var rest := stream[REQUEST_HEADER_LEN..];
            (Broken(stream) <==> Broken(rest)) && Leftover(stream) == Leftover(rest)
  {
    hide DecodeRequest;
    var rest := stream[REQUEST_HEADER_LEN..];
    var g := GoodFrames(rest);
    GoodFramesFit(rest);
    assert GoodFrames(stream) == g + 1;
    assert REQUEST_HEADER_LEN * (g + 1) == REQUEST_HEADER_LEN + REQUEST_HEADER_LEN * g;
    DropTwice(stream, REQUEST_HEADER_LEN, REQUEST_HEADER_LEN * g);
  }

  lemma DropTwice(s: seq<Byte>, i: nat, j: nat)
    requires i + j <= |s|
    ensures s[i..][j..] == s[i + j..]
  {
  }

  /** Reply k is the reply to frame k of the stream. */
  lemma {:induction false} ReplyAt(stream: seq<Byte>, me: U32, k: nat)
    requires k < GoodFrames(stream)
    ensures REQUEST_HEADER_LEN * (k + 1) <= |stream|
    ensures DecodeRequest(Frame(stream, k)).Some? && Replies(stream, me)[k] == Reply(Frame(stream, k), me)
    decreases |stream|
  {
    hide DecodeRequest, Reply;
    GoodFramesFit(stream);
    if k == 0 {
      assert Frame(stream, 0) == stream[..REQUEST_HEADER_LEN];
    } else {
      ReplyAt(stream[REQUEST_HEADER_LEN..], me, k - 1);
      FrameShifts(stream, k - 1);
    }
  }

  /** What counts as good: k frames are good exactly if the stream holds k whole frames and each of
      them decodes. */
  lemma {:induction false} GoodFramesIff(stream: seq<Byte>, k: nat)
    ensures k <= GoodFrames(stream) <==>
            && REQUEST_HEADER_LEN * k <= |stream|
            && forall j {:trigger Frame(stream, j)} :: 0 <= j < k ==> DecodeRequest(Frame(stream, j)).Some?
    decreases |stream|
  {
    hide DecodeRequest;
    GoodFramesFit(stream);
    if k <= GoodFrames(stream) {
      forall j | 0 <= j < k ensures DecodeRequest(Frame(stream, j)).Some? { ReplyAt(stream, 0, j); }
    } else if REQUEST_HEADER_LEN * k <= |stream| {
      FirstNotGood(stream);
      assert Frame(stream, GoodFrames(stream)) == Frame(stream, GoodFrames(stream));
    }
  }

  /** The frame after the good ones, if whole, does not decode. */
  lemma {:induction false} FirstNotGood(stream: seq<Byte>)
    requires REQUEST_HEADER_LEN * (GoodFrames(stream) + 1) <= |stream|
    ensures DecodeRequest(Frame(stream, GoodFrames(stream))).None?
    decreases |stream|
  {
    hide DecodeRequest;
    if GoodFrames(stream) > 0 {
      FirstNotGood(stream[REQUEST_HEADER_LEN..]);
      FrameShifts(stream, GoodFrames(stream) - 1);
    } else {
      assert Frame(stream, 0) == stream[..REQUEST_HEADER_LEN];
    }
  }

  /** Chunks add up in the order they are read. */
  lemma {:induction false} ConcatAppends(chunks: seq<seq<Byte>>, more: seq<Byte>)
    ensures Concat([]) == [] && Concat(chunks + [more]) == Concat(chunks) + more
  {
    if chunks == [] {
      assert [more][1..] == [] && [] + [more] == [more];
    } else {
      ConcatAppends(chunks[1..], more);
      assert (chunks + [more])[1..] == chunks[1..] + [more];
    }
  }

  ghost predicate AllDelivered(delivers: nat -> bool) {
    forall k: nat :: delivers(k)
  }

  /** Serving a buffer whose writes succeed sends its replies, keeps its leftover while nothing is
      broken, and closes exactly when something is. */
  lemma {:induction false} ServeSendsReplies(buf: seq<Byte>, me: U32, delivers: nat -> bool, k: nat)
    requires AllDelivered(delivers)
    ensures var s := Serve(buf, me, delivers, k);
            && s.sent == Replies(buf, me)
            && (s.close <==> Broken(buf))
            && (!s.close ==> s.rest == Leftover(buf) && |s.rest| < REQUEST_HEADER_LEN)
    decreases |buf|
  {
    if GoodFrames(buf) > 0 {
      ServeSendsReplies(buf[REQUEST_HEADER_LEN..], me, delivers, k + 1);
      LeftoverUnfold(buf);
    }
  }

  /** More bytes change nothing before the leftover, and nothing at all once it is broken. */
  lemma {:induction false} StreamSplits(stream: seq<Byte>, more: seq<Byte>, me: U32)
    ensures Broken(stream) ==> Replies(stream + more, me) == Replies(stream, me) && Broken(stream + more)
    ensures !Broken(stream) ==>
              var tail := Leftover(stream) + more;
              && Replies(stream + more, me) == Replies(stream, me) + Replies(tail, me)
              && (Broken(stream + more) <==> Broken(tail)) && Leftover(stream + more) == Leftover(tail)
    decreases |stream|
  {
    hide DecodeRequest, Reply;
    if GoodFrames(stream) > 0 {
      var rest := stream[REQUEST_HEADER_LEN..];
      StreamSplits(rest, more, me);
      assert (stream + more)[..REQUEST_HEADER_LEN] == stream[..REQUEST_HEADER_LEN];
      assert (stream + more)[REQUEST_HEADER_LEN..] == rest + more;
      LeftoverUnfold(stream);
      LeftoverUnfold(stream + more);
    } else if Broken(stream) {
      assert (stream + more)[..REQUEST_HEADER_LEN] == stream[..REQUEST_HEADER_LEN];
    }
  }

  // ---- any chunking gives the same responses ----

  /** No hang-up, the drain ends because nothing more is there, and writes succeed. */
  ghost predicate Ordinary(ev: ConnEvent) {
    !ev.hangup && ev.drain.end.WouldBlock? && AllDelivered(ev.delivers)
  }

  function BytesOf(events: seq<ConnEvent>): seq<Byte> {
    if events == [] then [] else Concat(events[0].drain.chunks) + BytesOf(events[1..])
  }

  /** The stream of a series of events is what they read, in order. */
  lemma {:induction false} BytesAppend(events: seq<ConnEvent>, ev: ConnEvent)
    ensures BytesOf([]) == [] && BytesOf(events + [ev]) == BytesOf(events) + Concat(ev.drain.chunks)
  {
    if events == [] {
      assert [ev][1..] == [] && [] + [ev] == [ev];
    } else {
      BytesAppend(events[1..], ev);
      assert (events + [ev])[1..] == events[1..] + [ev];
    }
  }

  /** The connection reflects exactly the stream received so far. */
  ghost predicate Reflects(c: Conn, stream: seq<Byte>, me: U32) {
    && c.sent == Replies(stream, me)
    && (c.open <==> !Broken(stream))
    && (c.open ==> c.buf == Leftover(stream))
  }

  lemma EventReflects(c: Conn, stream: seq<Byte>, ev: ConnEvent, me: U32)
    requires Reflects(c, stream, me) && c.open && Ordinary(ev)
    ensures var s := AfterEvent(c.buf, ev, me);
            Reflects(Conn(s.rest, c.sent + s.sent, !s.close), stream + Concat(ev.drain.chunks), me)
  {
    var more := Concat(ev.drain.chunks);
    ServeSendsReplies(c.buf + more, me, ev.delivers, 0);
    StreamSplits(stream, more, me);
  }

  lemma {:induction false} EventsReflect(c: Conn, stream: seq<Byte>, events: seq<ConnEvent>, me: U32)
    requires Reflects(c, stream, me) && forall i :: 0 <= i < |events| ==> Ordinary(events[i])
    ensures Reflects(AfterEvents(c, events, me), stream + BytesOf(events), me)
    decreases |events|
  {
    hide Reflects, AfterEvent, Ordinary;
    if events == [] {
      assert stream + BytesOf(events) == stream;
    } else if c.open {
      var s := AfterEvent(c.buf, events[0], me);
      var more := Concat(events[0].drain.chunks);
      EventReflects(c, stream, events[0], me);
      EventsReflect(Conn(s.rest, c.sent + s.sent, !s.close), stream + more, events[1..], me);
      assert stream + more + BytesOf(events[1..]) == stream + BytesOf(events);
    } else {
      ClosedReflects(c, stream, BytesOf(events), me);
    }
  }

  lemma ClosedReflects(c: Conn, stream: seq<Byte>, more: seq<Byte>, me: U32)
    requires Reflects(c, stream, me) && !c.open
    ensures Reflects(c, stream + more, me)
  {
    StreamSplits(stream, more, me);
  }

  const NEW_CONN := Conn([], [], true)

  /** Framing is blind to chunking. For any byte stream and any division of it into reads and
      events, the responses are the replies to its 24-byte frames up to the first bad magic; the
      connection closes exactly when there is one; and while it is open every byte received has
      been answered or is buffered, with less than a frame buffered. */
  lemma StreamDecidesResponses(events: seq<ConnEvent>, me: U32)
    requires forall i :: 0 <= i < |events| ==> Ordinary(events[i])
    ensures var c, stream := AfterEvents(NEW_CONN, events, me), BytesOf(events);
            && c.sent == Replies(stream, me)
            && (c.open <==> !Broken(stream))
            && (c.open ==>
                  && |stream| == REQUEST_HEADER_LEN * |c.sent| + |c.buf|
                  && |c.buf| < REQUEST_HEADER_LEN
                  && c.buf == stream[REQUEST_HEADER_LEN * |c.sent|..])
  {
    assert GoodFrames([]) == 0;
    EventsReflect(NEW_CONN, [], events, me);
    assert [] + BytesOf(events) == BytesOf(events);
    GoodFramesFit(BytesOf(events));
  }

  /** Reply k answers frame k, and is the encoding of its decoded fields. */
  lemma ReplyMeaning(stream: seq<Byte>, me: U32, k: nat)
    requires k < GoodFrames(stream)
    ensures REQUEST_HEADER_LEN * (k + 1) <= |stream| && DecodeRequest(Frame(stream, k)).Some?
    ensures var r := DecodeRequest(Frame(stream, k)).value;
            |Replies(stream, me)[k]| == RESPONSE_LEN
            && DecodeResponse(Replies(stream, me)[k]) == Response(r.id, me, r.sendNs)
  {
    ReplyAt(stream, me, k);
    var r := DecodeRequest(Frame(stream, k)).value;
    ResponseRoundTrip(Response(r.id, me, r.sendNs));
  }

  /** How many of the n responses from the k-th on are written before one fails. */
  function Delivered(delivers: nat -> bool, k: nat, n: nat): (d: nat)
    ensures d <= n
    decreases n
  {
    if n == 0 || !delivers(k) then 0 else 1 + Delivered(delivers, k + 1, n - 1)
  }

  lemma {:induction false} AllDeliveredIff(delivers: nat -> bool, k: nat, n: nat)
    ensures Delivered(delivers, k, n) == n <==> forall i :: k <= i < k + n ==> delivers(i)
    decreases n
  {
    if n > 0 { AllDeliveredIff(delivers, k + 1, n - 1); }
  }

  /** Whatever writes fail, a buffer's responses are its first replies, up to the first failure. */
  lemma {:induction false} ServeSendsDelivered(buf: seq<Byte>, me: U32, delivers: nat -> bool, k: nat)
    ensures Serve(buf, me, delivers, k).sent == Replies(buf, me)[..Delivered(delivers, k, GoodFrames(buf))]
    decreases |buf|
  {
    hide DecodeRequest, Reply;
    if GoodFrames(buf) > 0 && delivers(k) {
      var rest := buf[REQUEST_HEADER_LEN..];
      ServeSendsDelivered(rest, me, delivers, k + 1);
      var d := Delivered(delivers, k + 1, GoodFrames(rest));
      assert Replies(buf, me)[..d + 1] == [Replies(buf, me)[0]] + Replies(rest, me)[..d];
    }
  }

  /** How serving ends, whatever writes fail: it closes exactly at a failed write or a bad frame,
      and otherwise keeps the leftover. */
  lemma {:induction false} ServeEnds(buf: seq<Byte>, me: U32, delivers: nat -> bool, k: nat)
    ensures var s := Serve(buf, me, delivers, k);
            && (s.close <==> Delivered(delivers, k, GoodFrames(buf)) < GoodFrames(buf) || Broken(buf))
            && (!s.close ==> s.rest == Leftover(buf))
    decreases |buf|
  {
    hide DecodeRequest, Reply, Leftover;
    if GoodFrames(buf) > 0 {
      ServeEnds(buf[REQUEST_HEADER_LEN..], me, delivers, k + 1);
      LeftoverUnfold(buf);
    } else {
      NothingGood(buf);
    }
  }

  lemma NothingGood(buf: seq<Byte>)
    requires GoodFrames(buf) == 0
    ensures Leftover(buf) == buf
  {
  }

  /** What an event has to serve: a hang-up reads nothing. */
  function Buffered(buf: seq<Byte>, ev: ConnEvent): seq<Byte> {
    if ev.hangup then buf else buf + Concat(ev.drain.chunks)
  }

  /** A hang-up, an end-of-file or a read error throws complete frames away, a failed write those
      after it: an event answers everything buffered if and only if nothing was complete, or it
      was no hang-up, its drain ended in would-block, and every write succeeded. */
  lemma EventAnswersAllIff(buf: seq<Byte>, ev: ConnEvent, me: U32)
    ensures var all := Buffered(buf, ev);
            AfterEvent(buf, ev, me).sent == Replies(all, me)
            <==> GoodFrames(all) == 0
                 || (!ev.hangup && ev.drain.end.WouldBlock? && forall k :: 0 <= k < GoodFrames(all) ==> ev.delivers(k))
  {
    hide Serve;
    var all := Buffered(buf, ev);
    if !ev.hangup && ev.drain.end.WouldBlock? {
      ServeSendsDelivered(all, me, ev.delivers, 0);
      AllDeliveredIff(ev.delivers, 0, GoodFrames(all));
      assert |Replies(all, me)[..Delivered(ev.delivers, 0, GoodFrames(all))]| == Delivered(ev.delivers, 0, GoodFrames(all));
      assert Replies(all, me)[..GoodFrames(all)] == Replies(all, me);
    }
  }

  /** What one event does to an open connection: it stays open exactly if there was no hang-up, the
      drain ended in would-block, what is buffered then holds no bad frame, and every good frame's
      response is written; then it keeps the leftover. Unless it was hung up or drained to an end it
      sends the replies up to the first failed write. */
  lemma EventMeaning(buf: seq<Byte>, ev: ConnEvent, me: U32)
    ensures var s, all := AfterEvent(buf, ev, me), Buffered(buf, ev);
            var stays := !ev.hangup && ev.drain.end.WouldBlock? && !Broken(all)
                         && forall k :: 0 <= k < GoodFrames(all) ==> ev.delivers(k);
            && (s.close <==> !stays)
            && (stays ==> s.rest == Leftover(all))
            && s.sent == if ev.hangup || !ev.drain.end.WouldBlock? then []
                         else Replies(all, me)[..Delivered(ev.delivers, 0, GoodFrames(all))]
  {
    hide Serve, Leftover, Replies;
    var all := Buffered(buf, ev);
    ServeEnds(all, me, ev.delivers, 0);
    ServeSendsDelivered(all, me, ev.delivers, 0);
    AllDeliveredIff(ev.delivers, 0, GoodFrames(all));
  }

  // ---- end to end ----

  function Encoded(rs: seq<Request>): (s: seq<Byte>)
    ensures |s| == REQUEST_HEADER_LEN * |rs|
  {
    if rs == [] then [] else RequestBytes(rs[0]) + Encoded(rs[1..])
  }

  lemma {:induction false} EncodedFrames(rs: seq<Request>)
    ensures GoodFrames(Encoded(rs)) == |rs| && !Broken(Encoded(rs)) && Leftover(Encoded(rs)) == []
    decreases |rs|
  {
    if rs != [] {
      hide RequestBytes;
      var s := Encoded(rs);
      RequestRoundTrip(rs[0]);
      assert s[..REQUEST_HEADER_LEN] == RequestBytes(rs[0]) && s[REQUEST_HEADER_LEN..] == Encoded(rs[1..]);
      EncodedFrames(rs[1..]);
    }
  }

  lemma {:induction false} EncodedFrame(rs: seq<Request>, k: nat)
    requires k < |rs|
    ensures Frame(Encoded(rs), k) == RequestBytes(rs[k])
    decreases |rs|
  {
    hide RequestBytes;
    var s := Encoded(rs);
    if k == 0 {
      assert Frame(s, 0) == s[..REQUEST_HEADER_LEN];
    } else {
      EncodedFrame(rs[1..], k - 1);
      assert s[REQUEST_HEADER_LEN..] == Encoded(rs[1..]);
      assert Frame(s, k) == Frame(s[REQUEST_HEADER_LEN..], k - 1);
    }
  }

  /** End to end: any encoded requests, cut up in any way, come back as one response each, in
      order, whose decoding is the request's number, the serving worker and its timestamp. */
  lemma RequestsComeBack(rs: seq<Request>, events: seq<ConnEvent>, me: U32)
    requires BytesOf(events) == Encoded(rs) && forall i :: 0 <= i < |events| ==> Ordinary(events[i])
    ensures var c := AfterEvents(NEW_CONN, events, me);
            && c.open && c.buf == [] && |c.sent| == |rs|
            && forall k :: 0 <= k < |rs| ==>
                 |c.sent[k]| == RESPONSE_LEN
                 && DecodeResponse(c.sent[k]) == Response(rs[k].id, me, rs[k].sendNs)
  {
    hide Encoded, BytesOf, AfterEvents, Reply, Ordinary, DecodeResponse, DecodeRequest;
    var s := Encoded(rs);
    StreamDecidesResponses(events, me);
    EncodedFrames(rs);
    forall k | 0 <= k < |rs|
      ensures |Replies(s, me)[k]| == RESPONSE_LEN
              && DecodeResponse(Replies(s, me)[k]) == Response(rs[k].id, me, rs[k].sendNs)
    {
      ReplyMeaning(s, me, k);
      EncodedFrame(rs, k);
      RequestRoundTrip(rs[k]);
    }
  }
}
