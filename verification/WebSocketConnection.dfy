/** The connection as the code runs it: one read and one write at a time, into fields that carry what is in progress. */
module WebSocketConnection {
  import opened Bytes
  import opened Options
  import opened WebSocketFrames
  import opened WebSocketSession
  import opened WebSocketStream

  const BUFFER_SIZE := 4096

  datatype ReadState = MiniHeaderState | Len16State | Len64State | MaskState | PayloadState

  function StateAfter(form: Form): ReadState {
    match form
    case Long64 => Len64State
    case Long16 => Len16State
    case Short => MaskState
  }

  class Connection {
    /** What the peer has sent and the socket has not yet handed over. */
    var input: seq<byte>
    var state: ReadState
    var miniHeader: int
    var hasMask: bool
    var mask: seq<byte>
    var remaining: int
    var fragment: seq<byte>
    var incoming: Incoming
    var outgoing: Outgoing
    var ending: Ending

    ghost function Now(): Session
      reads this
    {
      Session(incoming, outgoing, ending)
    }

    /** Between two frames. */
    ghost predicate Idle()
      reads this
    {
      state == MiniHeaderState && fragment == []
    }

    constructor (input: seq<byte>)
      ensures Idle() && Now() == OPENED && this.input == input
    {
      this.input := input;
      state, miniHeader, hasMask, mask := MiniHeaderState, 0, false, [0, 0, 0, 0];
      remaining, fragment := 0, [];
      incoming, outgoing, ending := Incoming([], false, [], false), Outgoing([], [], true), UNENDED;
    }

    /** `do_write`: unless a write is under way, everything buffered is passed to the socket. */
    method DoWrite()
      modifies this`outgoing
      ensures outgoing == Enqueued(old(outgoing), [])
    {
      assert outgoing.queued + [] == outgoing.queued;
      if !outgoing.inFlight {
        outgoing := Outgoing(outgoing.started + outgoing.queued, [], true);
      }
    }

    /** `send_ping`, `send_pong`, `send_binary` and `send_text`. */
    method SendFrame(opcode: int, text: seq<byte>)
      requires 0 <= opcode < 16 && |text| < TWO_64
      modifies this`outgoing
      ensures outgoing == Enqueued(old(outgoing), Reply(opcode, text))
    {
      hide Header;
      ghost var queued := outgoing.queued;
      var header := BuildHeader(opcode, |text|);
      outgoing := outgoing.(queued := outgoing.queued + header);
      outgoing := outgoing.(queued := outgoing.queued + text);
      assert queued + header + text == queued + (header + text);
      assert outgoing.queued + [] == outgoing.queued;
      DoWrite();
    }

    /** `close`. */
    method Close(text: seq<byte>)
      requires |text| < TWO_64
      modifies this`outgoing, this`ending
      ensures Now() == Closing(old(Now()), text)
    {
      hide Reply;
      ending := ending.(sentClose := true);
      if ending.recvClose && !ending.called {
        ending := ending.(called := true);
        ending := ending.(closeCalls := ending.closeCalls + [text]);
      }
      SendFrame(8, text);
    }

    method CheckDestroy()
      modifies this`ending
      ensures ending == Destroying(old(ending), outgoing.inFlight)
    {
      if !ending.called {
        ending := ending.(closeCalls := ending.closeCalls + [UNCLEANLY]);
      }
      ending := ending.(destroyed := !outgoing.inFlight && !ending.reading);
    }

    /** The write under way has ended. */
    method OnWriteDone(ok: bool)
      requires outgoing.inFlight && !ending.destroyed
      modifies this`outgoing, this`ending
      ensures Now() == Step(old(Now()), WriteDone(ok))
    {
      outgoing := outgoing.(inFlight := false);
      if ok && !ending.closeConnection {
        if outgoing.queued != [] {
          DoWrite();
        }
        if ending.sentClose {
          ending := ending.(closeConnection := true);
        }
      } else {
        ending := ending.(closeConnection := true);
        CheckDestroy();
      }
    }

    /** The read under way has ended with an error. */
    method OnReadFailed()
      requires ending.reading && !ending.destroyed
      modifies this`ending
      ensures Now() == Step(old(Now()), ReadFails(state != MaskState && state != PayloadState))
    {
      ending := ending.(reading := false);
      ending := ending.(closeConnection := true);
      ending := ending.(shut := true);
      if state != MaskState && state != PayloadState {
        CheckDestroy();
      }
    }

    /** `async_read`: exactly `n` bytes. */
    method ReadExactly(n: nat) returns (bytes: seq<byte>)
      requires n <= |input|
      modifies this`input
      ensures |bytes| == n && bytes == old(input)[..n] && input == old(input)[n..]
    {
      bytes := input[..n];
      input := input[n..];
    }

    /** `async_read_some`: as many bytes as the socket likes, at least one when any are wanted. */
    method ReadSome(limit: nat) returns (bytes: seq<byte>)
      requires limit > 0 ==> input != []
      modifies this`input
      ensures |bytes| <= limit && |bytes| <= |old(input)| && (limit > 0 ==> bytes != [])
      ensures bytes == old(input)[..|bytes|] && input == old(input)[|bytes|..]
    {
      if limit == 0 {
        return [];
      }
      assert 1 <= 1 <= limit && 1 <= |input|;
      var n: nat :| 1 <= n <= limit && n <= |input|;
      bytes := ReadExactly(n);
    }

    /** Two bytes are asked for, and the variable they go to is zero beforehand. */
    method ReadMiniHeader() returns (ghost split: bool)
      requires input != []
      modifies this`input, this`state, this`miniHeader, this`hasMask, this`remaining
      ensures ReadHeader(old(input), split) == Some((miniHeader, input)) && hasMask == HasMask(miniHeader)
      ensures state == StateAfter(LengthForm(miniHeader))
      ensures state == MaskState ==> remaining == SmallLength(miniHeader)
    {
      hide HasMask, SmallLength;
      var bytes := ReadSome(2);
      split := |bytes| == 1;
      miniHeader := Htons(FromLittle16(if |bytes| == 2 then bytes else [bytes[0], 0]));
      hasMask := HasMask(miniHeader);
      if SmallLength(miniHeader) == 127 {
        state := Len64State;
      } else if SmallLength(miniHeader) == 126 {
        state := Len16State;
      } else {
        remaining := SmallLength(miniHeader);
        state := MaskState;
      }
    }

    method ReadLen16()
      requires |input| >= 2
      modifies this`input, this`state, this`remaining
      ensures input == old(input)[2..] && remaining == Length16(old(input)[..2]) && state == MaskState
    {
      var bytes := ReadExactly(2);
      remaining := Htons(FromLittle16(bytes));
      state := MaskState;
    }

    method ReadLen64()
      requires |input| >= 8
      modifies this`input, this`state, this`remaining
      ensures input == old(input)[8..] && remaining == Length64(old(input)[..8]) && state == MaskState
    {
      var bytes := ReadExactly(8);
      remaining := Swap64(FromLittle64(bytes));
      state := MaskState;
    }

    /** The state after the header says which length is read, if any. */
    method ReadLengthFor() returns (complete: bool)
      requires state == StateAfter(LengthForm(miniHeader))
      requires state == MaskState ==> remaining == SmallLength(miniHeader)
      modifies this`input, this`state, this`remaining
      ensures complete == ReadLength(miniHeader, old(input)).Some?
      ensures complete ==> ReadLength(miniHeader, old(input)) == Some((remaining, input)) && state == MaskState
    {
      hide SmallLength, Length16, Length64;
      if state == Len64State {
        if |input| < 8 {
          return false;
        }
        ReadLen64();
      } else if state == Len16State {
        if |input| < 2 {
          return false;
        }
        ReadLen16();
      }
      return true;
    }

    method ReadMask()
      requires hasMask ==> |input| >= 4
      modifies this`input, this`state, this`mask
      ensures state == PayloadState
      ensures !hasMask ==> input == old(input) && mask == old(mask)
      ensures hasMask ==> mask == old(input)[..4] && input == old(input)[4..]
    {
      if hasMask {
        mask := ReadExactly(4);
      }
      state := PayloadState;
    }

    /** Reads of any size up to the buffer's, until the whole payload is in the fragment or nothing more comes. */
    method ReadPayload() returns (complete: bool)
      requires 0 <= remaining && fragment == []
      modifies this`input, this`remaining, this`fragment
      ensures complete == (old(remaining) <= |old(input)|)
      ensures complete ==> fragment == old(input)[..old(remaining)] && input == old(input)[old(remaining)..]
    {
      ghost var all, size := input, remaining;
      while true
        invariant 0 <= remaining && |fragment| + remaining == size
        invariant |fragment| <= |all| && fragment == all[..|fragment|] && input == all[|fragment|..]
        decreases remaining
      {
        var toRead := BUFFER_SIZE;
        if remaining < toRead {
          toRead := remaining;
        }
        if toRead > 0 && input == [] {
          return false;
        }
        var bytes := ReadSome(toRead);
        fragment := fragment + bytes;
        remaining := remaining - |bytes|;
        if remaining == 0 {
          return true;
        }
      }
    }

    method Unmask()
      requires |mask| == 4
      modifies this`fragment
      ensures fragment == Masked(old(fragment), mask)
    {
      ghost var was := fragment;
      for i := 0 to |fragment|
        invariant |fragment| == |was|
        invariant forall k :: 0 <= k < |was| ==> fragment[k] == if k < i then Xor(was[k], mask[k % 4]) else was[k]
      {
        fragment := fragment[i := Xor(fragment[i], mask[i % 4])];
      }
    }

    method MergeFragment(fin: bool)
      modifies this`incoming
      ensures incoming == Extended(old(incoming), fin, fragment)
    {
      incoming := incoming.(message := incoming.message + fragment);
      if fin {
        incoming := incoming.(delivered := incoming.delivered + [(incoming.message, incoming.isBinary)]);
        incoming := incoming.(message := []);
      }
    }

    /** The peer answers our close; the next read is issued if the object is still there. */
    method AnswerToClose()
      modifies this`ending
      ensures ending == Answered(old(ending), outgoing.inFlight, fragment)
    {
      ending := ending.(recvClose := true, reading := false);
      ending := ending.(shut := true);
      ending := ending.(closeConnection := true);
      if !ending.called {
        ending := ending.(closeCalls := ending.closeCalls + [fragment]);
        ending := ending.(called := true);
      }
      CheckDestroy();
      ending := ending.(reading := !ending.destroyed);
    }

    /** The frame whose parts the fields hold. */
    ghost function Current(): (f: Frame)
      requires hasMask ==> |mask| == 4
      reads this
    {
      FrameOf(miniHeader, if hasMask then Some(mask) else None, fragment)
    }

    /** The complete frame is unmasked and handed to what its opcode asks for. */
    method HandleFragment()
      requires hasMask ==> |mask| == 4
      requires Open(ending) && Good(Current())
      modifies this`fragment, this`incoming, this`outgoing, this`ending
      ensures fragment == [] && Now() == Handled(old(Now()), old(Current()))
    {
      hide Masked, Reply, Fin, Opcode, Extended, Closing, Answered;
      ghost var f := Current();
      SizeFits(f);
      if hasMask {
        Unmask();
      }
      assert fragment == f.payload;
      var opcode := Opcode(miniHeader);
      if opcode == 0 {
        MergeFragment(Fin(miniHeader));
      } else if opcode == 1 {
        incoming := incoming.(isBinary := false);
        MergeFragment(Fin(miniHeader));
      } else if opcode == 2 {
        incoming := incoming.(isBinary := true);
        MergeFragment(Fin(miniHeader));
      } else if opcode == 8 {
        if !ending.sentClose {
          ending := ending.(recvClose := true);
          Close(fragment);
        } else {
          AnswerToClose();
        }
      } else if opcode == 9 {
        SendFrame(10, fragment);
      } else if opcode == 10 {
        incoming := incoming.(pongReceived := true);
      }
      fragment := [];
    }

    /** One frame, from its first byte to its handler, or as much of it as the peer has sent. */
    method ReadFrame() returns (complete: bool, ghost split: bool)
      requires Idle() && Open(ending)
      modifies this
      ensures complete == ReadOne(old(input), split).Some?
      ensures complete ==>
        && Idle() && input == ReadOne(old(input), split).value.1
        && Now() == Handled(old(Now()), ReadOne(old(input), split).value.0)
      ensures !complete ==> Now() == old(Now())
    {
      hide Handled, HasMask, LengthForm, SmallLength, FrameOf, ReadHeader, ReadLength, StateAfter, Open, Good, Holds;
      if input == [] {
        return false, false;
      }
      split := ReadMiniHeader();
      complete := ReadLengthFor();
      if !complete {
        return false, split;
      }
      if hasMask && |input| < 4 {
        return false, split;
      }
      ReadMask();
      complete := ReadPayload();
      if complete {
        FrameOfIsGood(miniHeader, if hasMask then Some(mask) else None, fragment);
        HandleFragment();
        state := MiniHeaderState;
      }
    }

    /** Frames one after another, however the socket cuts its input, as long as the connection is open. */
    method ReadFrames() returns (ghost splits: seq<bool>)
      requires Idle()
      modifies this
      ensures Now() == Stream(old(Now()), old(input), splits).0
      decreases |input|
    {
      hide Handled, ReadOne, Open, Good;
      splits := [];
      if Open(ending) {
        var complete, split := ReadFrame();
        splits := [split];
        if complete {
          var later := ReadFrames();
          assert ([split] + later)[1..] == later;
          splits := [split] + later;
        }
      }
    }

    /** One message from the socket, in any frames and with control frames among them. */
    method ReceiveMessage(ghost frames: seq<Frame>) returns (ghost splits: seq<bool>)
      requires Idle() && Open(ending) && incoming.message == []
      requires AllGood(frames) && IsMessage(Arrivals(frames)) && input == AllFrameBytes(frames)
      modifies this
      ensures NoneSplit(splits, |frames|) ==>
        && incoming.message == [] && Open(ending)
        && incoming.delivered == old(incoming.delivered) + [(Payload(Arrivals(frames)), Binary(Arrivals(frames)))]
    {
      hide Stream, IsMessage, Payload, Binary, AllFrameBytes, NoneSplit, Open;
      ghost var before := Now();
      splits := ReadFrames();
      if NoneSplit(splits, |frames|) {
        MessageBytesAreDelivered(before, frames, splits);
      }
    }
  }
}
