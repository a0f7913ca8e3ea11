/**
 A connection between its frames, as the handlers see it: messages over frames (section 5.4 of RFC 6455), the two
 write buffers and the closing handshake.
 */
module WebSocketSession {
  import opened Bytes
  import opened Options
  import opened WebSocketFrames

  /** The message in progress and its type, what the message handler was called with, and the pong flag. */
  datatype Incoming = Incoming(message: seq<byte>, isBinary: bool, delivered: seq<(seq<byte>, bool)>, pongReceived: bool)

  /** The bytes passed to the socket's writer, those still in the write buffer, and whether a write is under way. */
  datatype Outgoing = Outgoing(started: seq<byte>, queued: seq<byte>, inFlight: bool)

  /**
   The closing flags, the close handler's flag and its calls, the mark that stops the writer, whether a read is
   under way, the socket, closed, and the object, deleted.
   */
  datatype Ending = Ending(
    recvClose: bool, sentClose: bool, called: bool, closeCalls: seq<seq<byte>>,
    closeConnection: bool, reading: bool, shut: bool, destroyed: bool)

  datatype Session = Session(incoming: Incoming, outgoing: Outgoing, ending: Ending)

  /** After the handshake response was passed to the writer and the first read was issued. */
  const OPENED := Session(Incoming([], false, [], false), Outgoing([], [], true), UNENDED)

  const UNENDED := Ending(false, false, false, [], false, true, false, false)

  /** "uncleanly". */
  const UNCLEANLY: seq<byte> := [117, 110, 99, 108, 101, 97, 110, 108, 121]

  /** Frames still reach their handler. */
  predicate Open(d: Ending) {
    !d.destroyed && !d.shut && d.reading
  }

  /** Everything that was to be sent so far, in order. */
  function Offered(o: Outgoing): seq<byte> {
    o.started + o.queued
  }

  /** A frame on the wire: masked or not, its length in any form that can hold it. */
  datatype Frame = Frame(fin: bool, opcode: int, key: Option<seq<byte>>, form: Form, payload: seq<byte>)

  predicate Good(f: Frame) {
    0 <= f.opcode < 16 && Holds(f.form, |f.payload|) && (f.key.Some? ==> |f.key.value| == 4)
  }

  predicate AllGood(frames: seq<Frame>) {
    forall i :: 0 <= i < |frames| ==> Good(frames[i])
  }

  lemma SizeFits(f: Frame)
    requires Good(f)
    ensures |f.payload| < TWO_64
  {
  }

  function KeyBytes(f: Frame): seq<byte> {
    if f.key.Some? then f.key.value else []
  }

  function SentPayload(f: Frame): (r: seq<byte>)
    requires Good(f)
    ensures |r| == |f.payload|
  {
    if f.key.Some? then Masked(f.payload, f.key.value) else f.payload
  }

  function FrameBytes(f: Frame): seq<byte>
    requires Good(f)
  {
    Header(f.fin, f.opcode, f.key.Some?, f.form, |f.payload|) + (KeyBytes(f) + SentPayload(f))
  }

  function Reply(opcode: int, text: seq<byte>): seq<byte>
    requires 0 <= opcode < 16 && |text| < TWO_64
  {
    Header(true, opcode, false, FormFor(|text|), |text|) + text
  }

  /** What this side sends is a frame the other side's reader takes: final, unmasked, in the shortest form. */
  lemma ReplyIsAFrame(opcode: int, text: seq<byte>)
    requires 0 <= opcode < 16 && |text| < TWO_64
    ensures var f := Frame(true, opcode, None, FormFor(|text|), text);
      Good(f) && FrameBytes(f) == Reply(opcode, text)
  {
    hide Header;
    assert [] + text == text;
  }

  /** `do_write` after a frame was put into the write buffer. */
  function Enqueued(o: Outgoing, bytes: seq<byte>): Outgoing {
    if o.inFlight then Outgoing(o.started, o.queued + bytes, true)
    else Outgoing(o.started + (o.queued + bytes), [], true)
  }

  /** `check_destroy`: it calls the close handler when that was not called, and leaves the flag as it is. */
  function Destroying(d: Ending, inFlight: bool): Ending {
    d.(closeCalls := if d.called then d.closeCalls else d.closeCalls + [UNCLEANLY],
       destroyed := !inFlight && !d.reading)
  }

  /** `close` calls the close handler when the peer closed first and it was not called. */
  function SaidClose(d: Ending, text: seq<byte>): Ending {
    if d.recvClose && !d.called then d.(sentClose := true, called := true, closeCalls := d.closeCalls + [text])
    else d.(sentClose := true)
  }

  function Closing(s: Session, text: seq<byte>): Session
    requires |text| < TWO_64
  {
    Session(s.incoming, Enqueued(s.outgoing, Reply(8, text)), SaidClose(s.ending, text))
  }

  /** The peer answers our close: the socket is closed, and the next read is issued unless the object is gone. */
  function Answered(d: Ending, inFlight: bool, text: seq<byte>): Ending {
    var t := d.(recvClose := true, shut := true, closeConnection := true, reading := false, called := true,
                closeCalls := if d.called then d.closeCalls else d.closeCalls + [text]);
    var u := Destroying(t, inFlight);
    u.(reading := !u.destroyed)
  }

  function Extended(i: Incoming, fin: bool, payload: seq<byte>): Incoming {
    if fin then i.(message := [], delivered := i.delivered + [(i.message + payload, i.isBinary)])
    else i.(message := i.message + payload)
  }

  /** What a complete frame does. */
  function Handled(s: Session, f: Frame): Session
    requires Good(f)
  {
    if !Open(s.ending) then s
    else if f.opcode == 0 then s.(incoming := Extended(s.incoming, f.fin, f.payload))
    else if f.opcode == 1 then s.(incoming := Extended(s.incoming.(isBinary := false), f.fin, f.payload))
    else if f.opcode == 2 then s.(incoming := Extended(s.incoming.(isBinary := true), f.fin, f.payload))
    else if f.opcode == 8 then
      if !s.ending.sentClose then Closing(s.(ending := s.ending.(recvClose := true)), f.payload)
      else s.(ending := Answered(s.ending, s.outgoing.inFlight, f.payload))
    else if f.opcode == 9 then s.(outgoing := Enqueued(s.outgoing, Reply(10, f.payload)))
    else if f.opcode == 10 then s.(incoming := s.incoming.(pongReceived := true))
    else s
  }

  /** A write ends: the next one starts unless it failed or the connection is marked; `close` then marks it. */
  function Written(s: Session, ok: bool): Session {
    var idle := s.outgoing.(inFlight := false);
    if !s.outgoing.inFlight then s
    else if ok && !s.ending.closeConnection then
      s.(outgoing := if idle.queued == [] then idle else Enqueued(idle, []),
         ending := s.ending.(closeConnection := s.ending.sentClose))
    else s.(outgoing := idle, ending := Destroying(s.ending.(closeConnection := true), false))
  }

  /** A read ends with an error: in the states of the header the object may go at once. */
  function ReadFailed(d: Ending, inFlight: bool, inHeader: bool): Ending {
    var t := d.(reading := false, closeConnection := true, shut := true);
    if !d.reading then d else if inHeader then Destroying(t, inFlight) else t
  }

  /** A frame arrives, the application sends or closes, a write ends, a read ends with an error. */
  datatype Event =
    | Arrives(frame: Frame)
    | Sends(opcode: int, text: seq<byte>)
    | Closes(text: seq<byte>)
    | WriteDone(ok: bool)
    | ReadFails(inHeader: bool)

  predicate GoodEvent(e: Event) {
    match e
    case Arrives(f) => Good(f)
    case Sends(opcode, text) => 0 <= opcode < 16 && |text| < TWO_64
    case Closes(text) => |text| < TWO_64
    case _ => true
  }

  predicate AllGoodEvents(events: seq<Event>) {
    forall i :: 0 <= i < |events| ==> GoodEvent(events[i])
  }

  function Step(s: Session, e: Event): Session
    requires GoodEvent(e)
  {
    if s.ending.destroyed then s
    else
      match e
      case Arrives(f) => Handled(s, f)
      case Sends(opcode, text) => s.(outgoing := Enqueued(s.outgoing, Reply(opcode, text)))
      case Closes(text) => Closing(s, text)
      case WriteDone(ok) => Written(s, ok)
      case ReadFails(inHeader) => s.(ending := ReadFailed(s.ending, s.outgoing.inFlight, inHeader))
  }

  function Run(s: Session, events: seq<Event>): Session
    requires AllGoodEvents(events)
    decreases |events|
  {
    if events == [] then s else Run(Step(s, events[0]), events[1..])
  }

  function HandledAll(s: Session, frames: seq<Frame>): Session
    requires AllGood(frames)
    decreases |frames|
  {
    if frames == [] then s else HandledAll(Handled(s, frames[0]), frames[1..])
  }

  function Arrivals(frames: seq<Frame>): (events: seq<Event>)
    requires AllGood(frames)
    ensures |events| == |frames| && AllGoodEvents(events)
  {
    seq(|frames|, i requires 0 <= i < |frames| => Arrives(frames[i]))
  }

  /** Frames in a row are a run, so what holds of runs holds of them. */
  lemma {:induction false} FramesAreEvents(s: Session, frames: seq<Frame>)
    requires AllGood(frames)
    ensures HandledAll(s, frames) == Run(s, Arrivals(frames))
    decreases |frames|
  {
    hide Handled, Good, Step;
    if frames != [] {
      var events := Arrivals(frames);
      assert events[0] == Arrives(frames[0]) && events[1..] == Arrivals(frames[1..]);
      ArrivalIsHandled(s, frames[0]);
      FramesAreEvents(Handled(s, frames[0]), frames[1..]);
    }
  }

  lemma ArrivalIsHandled(s: Session, f: Frame)
    requires Good(f)
    ensures Step(s, Arrives(f)) == Handled(s, f)
  {
  }

  /** Pings, pongs and frames of unknown opcodes, and what happens on this side, short of a failing read. */
  predicate Aside(e: Event) {
    match e
    case Arrives(f) => f.opcode > 2 && f.opcode != 8
    case ReadFails(_) => false
    case _ => true
  }

  /** Continuation frames up to the final one, with other things anywhere among them. */
  predicate Continues(events: seq<Event>) {
    && events != []
    && if Aside(events[0]) then Continues(events[1..])
       else
         && events[0].Arrives? && events[0].frame.opcode == 0
         && if events[0].frame.fin then |events| == 1 else Continues(events[1..])
  }

  /** A whole message: a text or binary frame, then continuations unless it is final itself. */
  predicate IsMessage(events: seq<Event>) {
    && events != []
    && if Aside(events[0]) then IsMessage(events[1..])
       else
         && events[0].Arrives? && (events[0].frame.opcode == 1 || events[0].frame.opcode == 2)
         && if events[0].frame.fin then |events| == 1 else Continues(events[1..])
  }

  function Payload(events: seq<Event>): seq<byte> {
    if events == [] then []
    else (if events[0].Arrives? && !Aside(events[0]) then events[0].frame.payload else []) + Payload(events[1..])
  }

  function Binary(events: seq<Event>): bool
    requires IsMessage(events)
  {
    if Aside(events[0]) then Binary(events[1..]) else events[0].frame.opcode == 2
  }

  /** What an event puts into the write buffer: a pong for a ping, a close for a close, and the application's own. */
  function Said(d: Ending, e: Event): seq<byte>
    requires GoodEvent(e)
  {
    if d.destroyed then []
    else
      match e
      case Arrives(f) =>
        if !Open(d) then []
        else if f.opcode == 9 then Reply(10, f.payload)
        else if f.opcode == 8 && !d.sentClose then Reply(8, f.payload)
        else []
      case Sends(opcode, text) => Reply(opcode, text)
      case Closes(text) => Reply(8, text)
      case _ => []
  }

  function AllSaid(s: Session, events: seq<Event>): seq<byte>
    requires AllGoodEvents(events)
    decreases |events|
  {
    if events == [] then [] else Said(s.ending, events[0]) + AllSaid(Step(s, events[0]), events[1..])
  }

  /** Nothing but a marked connection leaves a filled write buffer without a write under way. */
  predicate Flushed(s: Session) {
    !s.outgoing.inFlight && s.outgoing.queued != [] ==> s.ending.closeConnection
  }

  lemma EnqueuedIsOffered(o: Outgoing, bytes: seq<byte>)
    ensures Offered(Enqueued(o, bytes)) == Offered(o) + bytes && Enqueued(o, bytes).inFlight
  {
    assert o.started + (o.queued + bytes) + [] == o.started + o.queued + bytes;
    assert o.started + (o.queued + bytes) == o.started + o.queued + bytes;
  }

  lemma StepSays(s: Session, e: Event)
    requires GoodEvent(e)
    ensures Offered(Step(s, e).outgoing) == Offered(s.outgoing) + Said(s.ending, e)
    ensures Flushed(s) ==> Flushed(Step(s, e))
  {
    hide Reply, Holds, Enqueued, Extended, Answered, SaidClose, Destroying;
    var was := Offered(s.outgoing);
    assert was + [] == was;
    match e
    case Arrives(f) =>
      SizeFits(f);
      if f.opcode == 9 {
        EnqueuedIsOffered(s.outgoing, Reply(10, f.payload));
      } else if f.opcode == 8 {
        EnqueuedIsOffered(s.outgoing, Reply(8, f.payload));
        AnsweredIsMarked(s.ending, s.outgoing.inFlight, f.payload);
      }
    case Sends(opcode, text) =>
      EnqueuedIsOffered(s.outgoing, Reply(opcode, text));
    case Closes(text) =>
      EnqueuedIsOffered(s.outgoing, Reply(8, text));
    case WriteDone(ok) =>
      EnqueuedIsOffered(s.outgoing.(inFlight := false), []);
      DestroyingIsMarked(s.ending.(closeConnection := true), false);
    case ReadFails(_) =>
      DestroyingIsMarked(s.ending.(reading := false, closeConnection := true, shut := true), s.outgoing.inFlight);
  }

  lemma AnsweredIsMarked(d: Ending, inFlight: bool, text: seq<byte>)
    ensures Answered(d, inFlight, text).closeConnection
  {
  }

  lemma DestroyingIsMarked(d: Ending, inFlight: bool)
    ensures Destroying(d, inFlight).closeConnection == d.closeConnection
  {
  }

  /**
   Over every run, what was passed to the writer and what is still buffered are together exactly what was said,
   in order; and with no write under way on an unmarked connection nothing is still buffered.
   */
  lemma {:induction false} EverythingIsOffered(s: Session, events: seq<Event>)
    requires AllGoodEvents(events) && Flushed(s)
    ensures var r, all := Run(s, events), Offered(s.outgoing) + AllSaid(s, events);
      && r.outgoing.started + r.outgoing.queued == all
      && (!r.outgoing.inFlight && !r.ending.closeConnection ==> r.outgoing.started == all)
    decreases |events|
  {
    hide Step, Said, GoodEvent;
    var was := Offered(s.outgoing);
    if events == [] {
      assert was + [] == was;
      assert s.outgoing.queued == [] ==> was == s.outgoing.started;
    } else {
      var e, rest := events[0], events[1..];
      StepSays(s, e);
      EverythingIsOffered(Step(s, e), rest);
      assert was + Said(s.ending, e) + AllSaid(Step(s, e), rest) == was + (Said(s.ending, e) + AllSaid(Step(s, e), rest));
    }
  }

  /** Things aside leave the message in progress alone and the connection open. */
  lemma AsideStep(s: Session, e: Event)
    requires GoodEvent(e) && Aside(e) && Open(s.ending)
    ensures var r := Step(s, e);
      && Open(r.ending) && r.incoming.message == s.incoming.message
      && r.incoming.isBinary == s.incoming.isBinary && r.incoming.delivered == s.incoming.delivered
  {
    hide Reply, Holds, Enqueued, Extended, Answered;
  }

  /** What a data frame does to the messages. */
  lemma DataStep(s: Session, f: Frame)
    requires Good(f) && f.opcode < 3 && Open(s.ending)
    ensures var r, binary := Step(s, Arrives(f)), if f.opcode == 0 then s.incoming.isBinary else f.opcode == 2;
      && r.ending == s.ending && r.incoming.isBinary == binary
      && r.incoming.message == (if f.fin then [] else s.incoming.message + f.payload)
      && r.incoming.delivered ==
         (if f.fin then s.incoming.delivered + [(s.incoming.message + f.payload, binary)] else s.incoming.delivered)
  {
    hide Reply, Holds, Enqueued, Answered, Closing;
  }

  lemma FirstEvent(s: Session, events: seq<Event>)
    requires AllGoodEvents(events) && events != []
    ensures AllGoodEvents(events[1..]) && Run(s, events) == Run(Step(s, events[0]), events[1..])
    ensures Payload(events) ==
            if events[0].Arrives? && !Aside(events[0]) then events[0].frame.payload + Payload(events[1..])
            else Payload(events[1..])
  {
    hide Step, GoodEvent;
    assert [] + Payload(events[1..]) == Payload(events[1..]);
  }

  lemma NoEvents(s: Session)
    ensures Run(s, []) == s && Payload([]) == []
  {
  }

  lemma {:induction false} ContinuationIsDelivered(s: Session, events: seq<Event>)
    requires AllGoodEvents(events) && Continues(events) && Open(s.ending)
    ensures var r, i := Run(s, events), s.incoming;
      && Open(r.ending) && r.incoming.message == []
      && r.incoming.delivered == i.delivered + [(i.message + Payload(events), i.isBinary)]
    decreases |events|
  {
    hide Step, Good, Open, Run, Payload;
    var e, rest := events[0], events[1..];
    FirstEvent(s, events);
    NoEvents(Step(s, e));
    if Aside(e) {
      AsideStep(s, e);
      ContinuationIsDelivered(Step(s, e), rest);
    } else {
      var f := e.frame;
      assert GoodEvent(e);
      DataStep(s, f);
      if f.fin {
        assert rest == [] && f.payload + [] == f.payload;
      } else {
        ContinuationIsDelivered(Step(s, e), rest);
        assert s.incoming.message + f.payload + Payload(rest) == s.incoming.message + (f.payload + Payload(rest));
      }
    }
  }

  /**
   A message split into any frames reaches the handler once, as the concatenation of its payloads and with the
   type of its first frame, whatever pings, pongs, sends, closes and ends of writes come in between.
   */
  lemma {:induction false} MessageIsDelivered(s: Session, events: seq<Event>)
    requires AllGoodEvents(events) && IsMessage(events) && Open(s.ending) && s.incoming.message == []
    ensures var r := Run(s, events);
      && Open(r.ending) && r.incoming.message == []
      && r.incoming.delivered == s.incoming.delivered + [(Payload(events), Binary(events))]
    decreases |events|
  {
    hide Step, Good, Open, Run, Payload;
    var e, rest := events[0], events[1..];
    FirstEvent(s, events);
    NoEvents(Step(s, e));
    if Aside(e) {
      AsideStep(s, e);
      MessageIsDelivered(Step(s, e), rest);
    } else {
      var f := e.frame;
      assert GoodEvent(e);
      DataStep(s, f);
      assert [] + f.payload == f.payload;
      if f.fin {
        assert rest == [] && f.payload + [] == f.payload;
      } else {
        ContinuationIsDelivered(Step(s, e), rest);
      }
    }
  }
}
