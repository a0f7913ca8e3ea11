/** The calls of the close handler, and what stays in the write buffer, over every run of a connection. */
module WebSocketClosing {
  import opened Bytes
  import opened Options
  import opened WebSocketFrames
  import opened WebSocketSession

  /** The peer's close frame reaches the handler. */
  predicate PeerCloses(s: Session, e: Event) {
    e.Arrives? && e.frame.opcode == 8 && Open(s.ending)
  }

  /** `check_destroy` runs before the peer has closed: a write fails or ends late, or a header cannot be read. */
  predicate Uncleanly(s: Session, e: Event) {
    && !s.ending.destroyed && !s.ending.recvClose
    && match e
       case WriteDone(ok) => s.outgoing.inFlight && (!ok || s.ending.closeConnection)
       case ReadFails(inHeader) => s.ending.reading && inHeader
       case _ => false
  }

  function Uncleans(s: Session, events: seq<Event>): nat
    requires AllGoodEvents(events)
    decreases |events|
  {
    if events == [] then 0
    else (if Uncleanly(s, events[0]) then 1 else 0) + Uncleans(Step(s, events[0]), events[1..])
  }

  /** The payload of the peer's first close frame, if there was one. */
  function PeerClose(s: Session, events: seq<Event>): (r: seq<seq<byte>>)
    requires AllGoodEvents(events)
    ensures |r| <= 1
    decreases |events|
  {
    if events == [] then []
    else if PeerCloses(s, events[0]) then [events[0].frame.payload]
    else PeerClose(Step(s, events[0]), events[1..])
  }

  function Repeated(x: seq<byte>, n: nat): (r: seq<seq<byte>>)
    ensures |r| == n
  {
    seq(n, i => x)
  }

  lemma RepeatedMore(x: seq<byte>)
    ensures Repeated(x, 0) == [] && forall n: nat :: Repeated(x, n + 1) == [x] + Repeated(x, n)
  {
  }

  /** The handler's flag says whether the peer has closed. */
  predicate Told(d: Ending) {
    d.called == d.recvClose
  }

  /** What one event adds to the calls. */
  function Calls(s: Session, e: Event): seq<seq<byte>> {
    if s.ending.recvClose then []
    else if Uncleanly(s, e) then [UNCLEANLY]
    else if PeerCloses(s, e) then [e.frame.payload]
    else []
  }

  lemma StepCalls(s: Session, e: Event)
    requires Told(s.ending) && GoodEvent(e)
    ensures var d, r := s.ending, Step(s, e).ending;
      && Told(r) && r.recvClose == (d.recvClose || PeerCloses(s, e)) && r.closeCalls == d.closeCalls + Calls(s, e)
  {
    hide Reply, Holds, Extended, Enqueued;
    var was := s.ending.closeCalls;
    assert was + [] == was;
    if e.Arrives? {
      SizeFits(e.frame);
    }
  }

  /**
   Over every run, failing reads and writes included, the close handler is called with the payload of the peer's
   first close frame, once, and before that with "uncleanly", once for each time `check_destroy` ran.
   */
  lemma {:induction false} CloseCallsAre(s: Session, events: seq<Event>)
    requires AllGoodEvents(events) && Told(s.ending) && !s.ending.recvClose
    ensures var r := Run(s, events).ending;
      && r.closeCalls == s.ending.closeCalls + Repeated(UNCLEANLY, Uncleans(s, events)) + PeerClose(s, events)
      && r.recvClose == (PeerClose(s, events) != [])
    decreases |events|
  {
    hide Step, Uncleanly, GoodEvent, Open, Repeated;
    var was, n := s.ending.closeCalls, Uncleans(s, events);
    RepeatedMore(UNCLEANLY);
    if events == [] {
      assert was + [] + [] == was;
    } else {
      var e, rest := events[0], events[1..];
      var next := Step(s, e);
      StepCalls(s, e);
      UncleanOrClosed(s, e);
      if PeerCloses(s, e) {
        CallsAreOver(next, rest);
        assert n == 0 && was + [] + [e.frame.payload] == was + [e.frame.payload];
      } else {
        CloseCallsAre(next, rest);
        var v, closed := Repeated(UNCLEANLY, Uncleans(next, rest)), PeerClose(next, rest);
        assert Repeated(UNCLEANLY, n) == Calls(s, e) + v by {
          assert [] + v == v;
        }
        assert was + (Calls(s, e) + v) + closed == was + Calls(s, e) + v + closed;
      }
    }
  }

  lemma UncleanOrClosed(s: Session, e: Event)
    ensures !(Uncleanly(s, e) && PeerCloses(s, e))
  {
  }

  /** After the peer's close nothing calls the handler. */
  lemma {:induction false} CallsAreOver(s: Session, events: seq<Event>)
    requires AllGoodEvents(events) && Told(s.ending) && s.ending.recvClose
    ensures var r := Run(s, events).ending;
      r.closeCalls == s.ending.closeCalls && r.recvClose && Uncleans(s, events) == 0
    decreases |events|
  {
    hide Step, GoodEvent, PeerCloses;
    if events != [] {
      StepCalls(s, events[0]);
      assert s.ending.closeCalls + [] == s.ending.closeCalls;
      CallsAreOver(Step(s, events[0]), events[1..]);
    }
  }

  /** No write and no read ends with an error. */
  predicate Faultless(events: seq<Event>) {
    forall i :: 0 <= i < |events| ==> events[i] != WriteDone(false) && !events[i].ReadFails?
  }

  /** A write ends after this side's close and before the peer's. */
  predicate EndsBetween(s: Session, e: Event) {
    e == WriteDone(true) && !s.ending.destroyed && s.outgoing.inFlight && s.ending.sentClose && !s.ending.recvClose
  }

  function WritesBetween(s: Session, events: seq<Event>): nat
    requires AllGoodEvents(events)
    decreases |events|
  {
    if events == [] then 0
    else (if EndsBetween(s, events[0]) then 1 else 0) + WritesBetween(Step(s, events[0]), events[1..])
  }

  /** On a connection without faults only a write that ended after this side's close sets the mark. */
  predicate Marked(d: Ending) {
    d.closeConnection ==> d.sentClose
  }

  lemma StepMarks(s: Session, e: Event)
    requires GoodEvent(e) && Marked(s.ending) && e != WriteDone(false) && !e.ReadFails?
    ensures var d, r := s.ending, Step(s, e).ending;
      && Marked(r) && (d.recvClose ==> r.recvClose)
      && (!r.recvClose ==> r.closeConnection == (d.closeConnection || EndsBetween(s, e)))
      && Uncleanly(s, e) == (EndsBetween(s, e) && d.closeConnection)
  {
    hide Reply, Holds, Extended, Enqueued;
    if e.Arrives? {
      SizeFits(e.frame);
    }
  }

  function Excess(n: nat, marked: bool): nat {
    if marked || n == 0 then n else n - 1
  }

  lemma {:induction false} UncleansAre(s: Session, events: seq<Event>)
    requires AllGoodEvents(events) && Faultless(events) && Marked(s.ending)
    ensures s.ending.recvClose ==> Uncleans(s, events) == WritesBetween(s, events) == 0
    ensures !s.ending.recvClose ==> Uncleans(s, events) == Excess(WritesBetween(s, events), s.ending.closeConnection)
    decreases |events|
  {
    hide Step, GoodEvent, Marked;
    if events != [] {
      StepMarks(s, events[0]);
      UncleansAre(Step(s, events[0]), events[1..]);
    }
  }

  /**
   Over every run without faults the close handler is called once for the peer's close, and once more for every
   write but the first that ended after this side's close and before the peer's. So it is called exactly when the
   peer closed, and once, if and only if at most one write ended in between.
   */
  lemma CloseHandlerIsCalledOnceIff(events: seq<Event>)
    requires AllGoodEvents(events) && Faultless(events)
    ensures var r, n, peer := Run(OPENED, events).ending, WritesBetween(OPENED, events), PeerClose(OPENED, events);
      && r.recvClose == (peer != [])
      && r.closeCalls == Repeated(UNCLEANLY, if n == 0 then 0 else n - 1) + peer
      && (r.closeCalls == peer <==> n <= 1)
  {
    hide Run, Uncleans, WritesBetween, PeerClose;
    CloseCallsAre(OPENED, events);
    UncleansAre(OPENED, events);
    var u, peer := Repeated(UNCLEANLY, Uncleans(OPENED, events)), PeerClose(OPENED, events);
    assert [] + u + peer == u + peer;
    assert |u + peer| == |u| + |peer|;
    assert u == [] ==> u + peer == peer;
  }

  /** A deleted connection has had its close handler called. */
  predicate CalledWhenGone(d: Ending) {
    d.called || d.destroyed ==> d.closeCalls != []
  }

  lemma StepCallsWhenGone(s: Session, e: Event)
    requires GoodEvent(e) && CalledWhenGone(s.ending)
    ensures CalledWhenGone(Step(s, e).ending)
  {
    hide Reply, Holds, Extended, Enqueued;
    if e.Arrives? {
      SizeFits(e.frame);
    }
  }

  /** Over every run no connection is deleted without a call of its close handler. */
  lemma {:induction false} NoneIsDeletedSilently(s: Session, events: seq<Event>)
    requires AllGoodEvents(events) && CalledWhenGone(s.ending)
    ensures CalledWhenGone(Run(s, events).ending)
    decreases |events|
  {
    hide Step, GoodEvent, CalledWhenGone;
    if events != [] {
      StepCallsWhenGone(s, events[0]);
      NoneIsDeletedSilently(Step(s, events[0]), events[1..]);
    }
  }

  lemma {:induction false} RunMore(s: Session, events: seq<Event>, e: Event)
    requires AllGoodEvents(events) && GoodEvent(e)
    ensures AllGoodEvents(events + [e]) && Run(s, events + [e]) == Step(Run(s, events), e)
    decreases |events|
  {
    hide Step, GoodEvent;
    if events == [] {
      assert [] + [e] == [e];
      assert Run(Step(s, e), [e][1..]) == Step(s, e);
    } else {
      assert (events + [e])[1..] == events[1..] + [e];
      RunMore(Step(s, events[0]), events[1..], e);
    }
  }

  function Ping(text: seq<byte>): (f: Frame)
    requires |text| < 126
    ensures Good(f)
  {
    Frame(true, 9, None, Short, text)
  }

  /** The handshake is written, this side closes, and its close frame is written. */
  function ClosedHere(text: seq<byte>): (events: seq<Event>)
    requires |text| < 126
    ensures AllGoodEvents(events)
  {
    [] + [WriteDone(true)] + [Closes(text)] + [WriteDone(true)]
  }

  lemma ClosedHereIs(text: seq<byte>)
    requires |text| < 126
    ensures Run(OPENED, ClosedHere(text)) ==
            Session(OPENED.incoming, Outgoing(Reply(8, text), [], false), UNENDED.(sentClose := true, closeConnection := true))
  {
    hide Reply, Run;
    RunMore(OPENED, [], WriteDone(true));
    RunMore(OPENED, [] + [WriteDone(true)], Closes(text));
    RunMore(OPENED, [] + [WriteDone(true)] + [Closes(text)], WriteDone(true));
    NoEvents(OPENED);
    assert [] + ([] + Reply(8, text)) == Reply(8, text);
  }

  /**
   This side closes, and a ping is answered before the peer closes: the handler is told of an unclean close while
   the peer is still there, and is called again when the peer's close frame comes.
   */
  lemma PingWhileClosingCallsTwice(text: seq<byte>, ping: seq<byte>, answer: seq<byte>)
    requires |text| < 126 && |ping| < 126 && |answer| < 126
    ensures var events := ClosedHere(text) + [Arrives(Ping(ping))] + [WriteDone(true)];
      var close := Arrives(Frame(true, 8, None, Short, answer));
      && AllGoodEvents(events) && AllGoodEvents(events + [close])
      && Run(OPENED, events).ending.closeCalls == [UNCLEANLY] && Open(Run(OPENED, events).ending)
      && Run(OPENED, events + [close]).ending.closeCalls == [UNCLEANLY, answer]
  {
    hide Reply, Run, ClosedHere;
    var first := ClosedHere(text);
    var second := first + [Arrives(Ping(ping))];
    var third := second + [WriteDone(true)];
    ClosedHereIs(text);
    RunMore(OPENED, first, Arrives(Ping(ping)));
    RunMore(OPENED, second, WriteDone(true));
    RunMore(OPENED, third, Arrives(Frame(true, 8, None, Short, answer)));
    assert [] + [UNCLEANLY] == [UNCLEANLY] && [UNCLEANLY] + [answer] == [UNCLEANLY, answer];
  }

  lemma {:induction false} OnlyClosingMarks(s: Session, events: seq<Event>)
    requires AllGoodEvents(events) && Faultless(events) && Marked(s.ending)
    ensures Marked(Run(s, events).ending)
    decreases |events|
  {
    hide Step, GoodEvent, Marked;
    if events != [] {
      StepMarks(s, events[0]);
      OnlyClosingMarks(Step(s, events[0]), events[1..]);
    }
  }

  /**
   Over every run without faults, as long as this side has not sent its close frame, nothing is left unsent: when
   no write is under way, every pong and every other frame said so far was passed to the writer, in order.
   */
  lemma AllIsWrittenBeforeClosing(events: seq<Event>)
    requires AllGoodEvents(events) && Faultless(events)
    ensures var r := Run(OPENED, events);
      !r.outgoing.inFlight && !r.ending.sentClose ==> r.outgoing.started == AllSaid(OPENED, events)
  {
    hide Run, AllSaid;
    OnlyClosingMarks(OPENED, events);
    EverythingIsOffered(OPENED, events);
    assert [] + [] + AllSaid(OPENED, events) == AllSaid(OPENED, events);
  }

  /** When a write ends, a filled buffer goes out if and only if the write succeeded and there is no mark. */
  lemma BufferGoesOutIff(s: Session, ok: bool)
    requires !s.ending.destroyed && s.outgoing.inFlight && s.outgoing.queued != []
    ensures var r, o := Step(s, WriteDone(ok)).outgoing, s.outgoing;
      && r == (if ok && !s.ending.closeConnection then Outgoing(o.started + o.queued, [], true)
               else Outgoing(o.started, o.queued, false))
  {
    assert s.outgoing.queued + [] == s.outgoing.queued;
  }

  /** The step passes bytes to the writer. */
  predicate StartsWrite(s: Session, e: Event)
    requires GoodEvent(e)
  {
    |Step(s, e).outgoing.started| > |s.outgoing.started|
  }

  /** What was said since the last write began, if `said` had been before these events. */
  function SaidSince(said: seq<byte>, s: Session, events: seq<Event>): seq<byte>
    requires AllGoodEvents(events)
    decreases |events|
  {
    if events == [] then said
    else
      SaidSince(if StartsWrite(s, events[0]) then [] else said + Said(s.ending, events[0]),
                Step(s, events[0]), events[1..])
  }

  lemma StepQueues(s: Session, e: Event)
    requires GoodEvent(e)
    ensures Step(s, e).outgoing.queued ==
            if StartsWrite(s, e) then [] else s.outgoing.queued + Said(s.ending, e)
  {
    hide Reply, Holds, Extended, Answered, SaidClose, Destroying;
    var was := s.outgoing.queued;
    assert was + [] == was;
    if e.Arrives? {
      SizeFits(e.frame);
      ReplyIsSomething(10, e.frame.payload);
      ReplyIsSomething(8, e.frame.payload);
    } else if e.Sends? {
      ReplyIsSomething(e.opcode, e.text);
    } else if e.Closes? {
      ReplyIsSomething(8, e.text);
    } else if e.WriteDone? && !s.ending.destroyed && s.outgoing.inFlight && was != [] {
      BufferGoesOutIff(s, e.ok);
    }
  }

  lemma ReplyIsSomething(opcode: int, text: seq<byte>)
    requires 0 <= opcode < 16 && |text| < TWO_64
    ensures |Reply(opcode, text)| > 0
  {
  }

  lemma {:induction false} QueuedIsSaidSince(s: Session, events: seq<Event>)
    requires AllGoodEvents(events)
    ensures Run(s, events).outgoing.queued == SaidSince(s.outgoing.queued, s, events)
    decreases |events|
  {
    hide Step, Said, StartsWrite, GoodEvent;
    if events != [] {
      StepQueues(s, events[0]);
      QueuedIsSaidSince(Step(s, events[0]), events[1..]);
    }
  }

  /**
   Over every run, faults and closes included: what is still unsent is exactly what was said since the last write
   began. So every pong and every other frame was passed to the writer if and only if nothing was said since.
   */
  lemma AllGoesOutIff(events: seq<Event>)
    requires AllGoodEvents(events)
    ensures var o, all, since := Run(OPENED, events).outgoing, AllSaid(OPENED, events), SaidSince([], OPENED, events);
      && o.started + since == all && (o.started == all <==> since == [])
  {
    hide Run, AllSaid, SaidSince;
    QueuedIsSaidSince(OPENED, events);
    EverythingIsOffered(OPENED, events);
    var o := Run(OPENED, events).outgoing;
    assert [] + [] + AllSaid(OPENED, events) == AllSaid(OPENED, events);
    assert |o.started + o.queued| == |o.started| + |o.queued|;
    assert o.started + [] == o.started;
  }

  /** After this side's close the second of two pongs stays in the buffer, though no write failed. */
  lemma PongIsLeftBehind(text: seq<byte>, ping: seq<byte>)
    requires |text| < 126 && |ping| < 126
    ensures var events := ClosedHere(text) + [Arrives(Ping(ping))] + [Arrives(Ping(ping))] + [WriteDone(true)];
      && AllGoodEvents(events) && Open(Run(OPENED, events).ending)
      && Run(OPENED, events).outgoing == Outgoing(Reply(8, text) + Reply(10, ping), Reply(10, ping), false)
  {
    hide Reply, Run, ClosedHere;
    var first := ClosedHere(text);
    var second := first + [Arrives(Ping(ping))];
    var third := second + [Arrives(Ping(ping))];
    ClosedHereIs(text);
    RunMore(OPENED, first, Arrives(Ping(ping)));
    RunMore(OPENED, second, Arrives(Ping(ping)));
    RunMore(OPENED, third, WriteDone(true));
    assert [] + Reply(10, ping) == Reply(10, ping);
  }
}
