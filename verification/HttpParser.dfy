/**
 The resumable parser: buffers arrive in any sizes, body bytes are handed on in slices of the buffer they came in,
 and the fields carry what the next call needs.
 */
module HttpParser {
  import opened Bytes
  import opened Options
  import opened HttpBody
  import C = ChunkedCoding

  function Joined(slices: seq<seq<byte>>): seq<byte> {
    if slices == [] then [] else Joined(slices[..|slices| - 1]) + slices[|slices| - 1]
  }

  function AllBytes(buffers: seq<seq<byte>>): seq<byte> {
    if buffers == [] then [] else buffers[0] + AllBytes(buffers[1..])
  }

  lemma JoinedMore(slices: seq<seq<byte>>, slice: seq<byte>)
    ensures Joined(slices + [slice]) == Joined(slices) + slice
  {
    assert (slices + [slice])[..|slices|] == slices;
  }

  lemma FeedNext(m: Machine, buffer: seq<byte>, p: nat, q: nat)
    requires p <= q <= |buffer|
    ensures Feed(m, buffer[..q]) == Feed(Feed(m, buffer[..p]), buffer[p..q])
    ensures q == p + 1 ==> Feed(m, buffer[..q]) == Step(Feed(m, buffer[..p]), buffer[p])
  {
    assert buffer[..q] == buffer[..p] + buffer[p..q];
    FeedConcat(m, buffer[..p], buffer[p..q]);
    if q == p + 1 {
      assert buffer[p..q] == [buffer[p]];
      C.OneByte(Feed(m, buffer[..p]), buffer[p]);
    }
  }

  lemma FailedAt(m: Machine, buffer: seq<byte>, p: nat)
    requires p < |buffer| && Feed(m, buffer[..p + 1]).error.Some?
    ensures Feed(m, buffer) == Feed(m, buffer[..p + 1])
  {
    FeedNext(m, buffer, p + 1, |buffer|);
    assert buffer[..|buffer|] == buffer;
    ErrorStays(Feed(m, buffer[..p + 1]), buffer[p + 1..]);
  }

  class Parser {
    var state: State
    var contentLength: int
    var nread: int
    var errno: Option<Errno>
    /** The arguments of the `on_body` calls, and the number of `on_message_complete` calls. */
    var bodies: seq<seq<byte>>
    var completes: nat

    ghost function View(): Machine
      reads this
    {
      Machine(state, contentLength, nread, errno, Joined(bodies), completes)
    }

    ghost predicate Valid()
      reads this
    {
      Sane(View())
    }

    /** The headers announced a chunked body, whatever length they announced or did not. */
    constructor ForChunks(length: int)
      requires 0 <= length <= ULLONG_MAX
      ensures Valid() && View() == Chunked(length)
    {
      state, contentLength, nread, errno, bodies, completes := ChunkSizeStart, length, 0, None, [], 0;
    }

    /** The headers announced a body of known length. */
    constructor OfLength(length: int)
      requires 0 < length < ULLONG_MAX
      ensures Valid() && View() == Identity(length)
    {
      state, contentLength, nread, errno, bodies, completes := BodyIdentity, length, 0, None, [], 0;
    }

    /** The states other than those that handle body bytes. */
    method Switch(ch: byte)
      requires Valid() && errno.None? && !state.ChunkData? && !state.BodyIdentity? && !state.ChunkDataAlmostDone?
      requires state.ChunkSizeStart? ==> nread == 0
      modifies this`state, this`contentLength, this`nread, this`errno, this`completes
      ensures View() == Step(old(View()), ch)
    {
      hide TooLarge, Wrap64, Unhex, Joined;
      if CountsAsHeader(state) {
        nread := nread + 1;
        if nread > MAX_HEADER_SIZE {
          errno := Some(HeaderOverflow);
          return;
        }
      }
      if state.HeaderFieldStart? && ch == LF {
        // A bare line feed ends the trailer too: the next state is entered with the same byte.
        state := HeadersAlmostDone;
        completes := completes + 1;
        return;
      }
      match state {
        case ChunkSizeStart =>
          assert nread == 1;
          var v := Unhex(ch);
          if v == -1 {
            errno := Some(InvalidChunkSize);
            return;
          }
          contentLength, state := v, ChunkSize;
        case ChunkSize =>
          if ch == CR {
            state := ChunkSizeAlmostDone;
            return;
          }
          var v := Unhex(ch);
          if v == -1 {
            if ch == 59 || ch == SPACE {
              state := ChunkParameters;
              return;
            }
            errno := Some(InvalidChunkSize);
            return;
          }
          var t := Wrap64(contentLength * 16 + v);
          if TooLarge(contentLength) {
            errno := Some(InvalidContentLength);
            return;
          }
          contentLength := t;
        case ChunkParameters =>
          if ch == CR {
            state := ChunkSizeAlmostDone;
          }
        case ChunkSizeAlmostDone =>
          if ch != LF {
            errno := Some(StrictCheck);
            return;
          }
          nread := 0;
          state := if contentLength == 0 then HeaderFieldStart else ChunkData;
        case ChunkDataDone =>
          if ch != LF {
            errno := Some(StrictCheck);
            return;
          }
          nread, state := 0, ChunkSizeStart;
        case HeaderFieldStart =>
          state := if ch == CR then HeadersAlmostDone else TrailerField;
        case HeadersAlmostDone =>
          if ch != LF {
            errno := Some(StrictCheck);
            return;
          }
          completes := completes + 1;
        case TrailerField =>
        case MessageDone =>
          completes := completes + 1;
      }
    }

    /** What a run of `Execute` has done up to byte `p`: the marked slice is read but not yet handed on. */
    ghost predicate Progress(m0: Machine, buffer: seq<byte>, p: nat, mark: Option<nat>)
      reads this
    {
      && p <= |buffer|
      && (mark.Some? ==>
            mark.value <= p && (state.ChunkData? || state.ChunkDataAlmostDone? || state.BodyIdentity?))
      && Valid() && errno.None?
      && Feed(m0, buffer[..p]) ==
         View().(body := Joined(bodies) + if mark.Some? then buffer[mark.value..p] else [])
    }

    /** Any non-empty buffer: the parser ends where reading its bytes one at a time ends. */
    method Execute(buffer: seq<byte>) returns (parsed: nat)
      requires Valid()
      modifies this
      ensures Valid()
      ensures old(errno).Some? ==> View() == old(View()) && parsed == 0
      ensures old(errno).None? && buffer == [] ==> View() == Fail(old(View()), InvalidEofState) && parsed == 1
      ensures old(errno).None? && buffer != [] && errno.None? ==>
        View() == Feed(old(View()), buffer) && parsed == |buffer|
      ensures old(errno).None? && buffer != [] ==>
        var m := Feed(old(View()), buffer);
        && errno == m.error && completes == m.completes && Joined(bodies) <= m.body
        && (errno.Some? ==> parsed < |buffer| && Feed(old(View()), buffer[..parsed]).error.None?)
    {
      hide Feed, Sane, Joined, Step;
      if errno != None {
        return 0;
      }
      if |buffer| == 0 {
        errno := Some(InvalidEofState);
        SaneFailure(old(View()), InvalidEofState);
        return 1;
      }
      ghost var m0 := View();
      var p: nat, mark: Option<nat> := 0, None;
      Started(m0, buffer);
      assert Joined(bodies) + [] == Joined(bodies);
      while p != |buffer|
        invariant Progress(m0, buffer, p, mark)
        decreases |buffer| - p
      {
        ghost var p0, m := p, Feed(m0, buffer[..p]);
        FeedKeepsSane(m0, buffer[..p]);
        p, mark := Advance(buffer, p, mark, m0);
        if errno != None {
          FailedAt(m0, buffer, p);
          return p;
        }
      }
      if mark.Some? {
        JoinedMore(bodies, buffer[mark.value..p]);
        bodies := bodies + [buffer[mark.value..p]];
      }
      assert buffer[..p] == buffer;
      FeedKeepsSane(m0, buffer);
      return |buffer|;
    }

    method OnBody(slice: seq<byte>)
      modifies this`bodies
      ensures Joined(bodies) == Joined(old(bodies)) + slice
    {
      JoinedMore(bodies, slice);
      bodies := bodies + [slice];
    }

    /** Chunk data or a body of known length: as many bytes at once as the buffer and the length allow. */
    method ReadBody(buffer: seq<byte>, p0: nat, mark0: Option<nat>, ghost m0: Machine)
      returns (p: nat, mark: Option<nat>)
      requires p0 < |buffer| && Progress(m0, buffer, p0, mark0) && (state.ChunkData? || state.BodyIdentity?)
      modifies this
      ensures errno.None? && p0 < p && Progress(m0, buffer, p, mark)
    {
      hide Feed, Joined, Sane, Step;
      ghost var was := View();
      SaneData(View());
      p := p0;
      var toRead := if contentLength < |buffer| - p then contentLength else |buffer| - p;
      assert contentLength != 0 && contentLength != ULLONG_MAX;
      var start := if mark0.Some? then mark0.value else p;
      mark := Some(start);
      assert buffer[p..p] == [];
      ReadAhead(m0, was, buffer, start, p, toRead);
      contentLength := contentLength - toRead;
      p := p + (toRead - 1);
      if contentLength == 0 {
        if state == ChunkData {
          state := ChunkDataAlmostDone;
        } else {
          state := MessageDone;
          OnBody(buffer[start..p + 1]);
          mark := None;
          completes := completes + 1;
        }
      }
      p := p + 1;
      SaneAfterData(was, View());
      assert Joined(bodies) + [] == Joined(bodies);
    }

    /** One turn of the loop. */
    method Advance(buffer: seq<byte>, p0: nat, mark0: Option<nat>, ghost m0: Machine)
      returns (p: nat, mark: Option<nat>)
      requires p0 < |buffer| && Progress(m0, buffer, p0, mark0) && Sane(m0)
      modifies this
      ensures errno.None? ==> p0 < p && Progress(m0, buffer, p, mark)
      ensures errno.Some? ==>
        && p == p0 && Valid()
        && var m := Feed(m0, buffer[..p + 1]);
           errno == m.error && completes == m.completes && Joined(bodies) <= m.body
    {
      hide Feed, Joined, Sane, TooLarge, Wrap64, Unhex;
      p, mark := p0, mark0;
      FeedNext(m0, buffer, p, p + 1);
      FeedKeepsSane(m0, buffer[..p + 1]);
      ghost var was, front := View(), Joined(bodies);
      assert front + [] == front;
      if state.ChunkData? || state.BodyIdentity? {
        p, mark := ReadBody(buffer, p, mark, m0);
        return;
      }
      BodyDoesNotMatter(was, Feed(m0, buffer[..p]).body, buffer[p]);
      StepKeepsSane(was, buffer[p]);
      if state.ChunkDataAlmostDone? {
        if buffer[p] != CR {
          errno := Some(StrictCheck);
          return;
        }
        state := ChunkDataDone;
        if mark.Some? {
          OnBody(buffer[mark.value..p]);
          mark := None;
        }
      } else {
        SaneData(was);
        Switch(buffer[p]);
        if errno != None {
          return;
        }
      }
      p := p + 1;
      assert Joined(bodies) + [] == Joined(bodies);
    }
  }

  lemma ReadAhead(m0: Machine, was: Machine, buffer: seq<byte>, start: nat, p: nat, n: nat)
    requires start <= p <= p + n <= |buffer| && Feed(m0, buffer[..p]) == was.(body := was.body + buffer[start..p])
    requires was.error.None? && (was.state.ChunkData? || was.state.BodyIdentity?) && 0 < n <= was.contentLength
    ensures Feed(m0, buffer[..p + n]) ==
            var rest := was.(contentLength := was.contentLength - n, body := was.body + buffer[start..p + n]);
            if n < was.contentLength then rest
            else if was.state.ChunkData? then rest.(state := ChunkDataAlmostDone)
            else rest.(state := MessageDone, completes := was.completes + 1)
  {
    hide Feed;
    FeedNext(m0, buffer, p, p + n);
    FeedData(Feed(m0, buffer[..p]), buffer[p..p + n]);
    assert buffer[start..p] + buffer[p..p + n] == buffer[start..p + n];
    assert was.body + buffer[start..p] + buffer[p..p + n] == was.body + buffer[start..p + n];
  }

  /** The outcome of feeding buffers one after another: that of their concatenation, however it was cut. */
  ghost predicate Outcome(parser: Parser, m: Machine)
    reads parser
  {
    && parser.errno == m.error && parser.completes == m.completes && Joined(parser.bodies) <= m.body
    && (parser.errno.None? ==> parser.View() == m)
  }

  method ExecuteAll(parser: Parser, buffers: seq<seq<byte>>)
    requires parser.Valid() && parser.errno.None? && forall b <- buffers :: b != []
    modifies parser
    ensures parser.Valid() && Outcome(parser, Feed(old(parser.View()), AllBytes(buffers)))
  {
    hide Feed, Joined, Sane, Step;
    ghost var m0 := parser.View();
    ghost var fed: seq<byte> := [];
    C.NothingToFeed(m0);
    for i := 0 to |buffers|
      invariant parser.Valid()
      invariant AllBytes(buffers) == fed + AllBytes(buffers[i..])
      invariant Outcome(parser, Feed(m0, fed))
    {
      assert buffers[i..][1..] == buffers[i + 1..];
      assert fed + (buffers[i] + AllBytes(buffers[i + 1..])) == fed + buffers[i] + AllBytes(buffers[i + 1..]);
      FeedConcat(m0, fed, buffers[i]);
      if parser.errno.Some? {
        ErrorStays(Feed(m0, fed), buffers[i]);
      }
      assert buffers[i] in buffers;
      var _ := parser.Execute(buffers[i]);
      fed := fed + buffers[i];
    }
    assert fed + [] == fed;
  }

  /** A chunked message within the limits, cut anywhere: its payload is handed on, and it completes once. */
  method ReceiveChunked(buffers: seq<seq<byte>>, ghost chunks: seq<C.Chunk>, ghost last: C.Chunk, length: int)
    returns (parser: Parser)
    requires (forall b <- buffers :: b != []) && AllBytes(buffers) == C.Message(chunks, last)
    requires C.WellChunked(chunks, last) && 0 <= length <= ULLONG_MAX
    ensures C.AllWithinLimits(chunks, last) ==>
      parser.errno.None? && Joined(parser.bodies) == C.Payload(chunks) && parser.completes == 1
    ensures !C.AllWithinLimits(chunks, last) ==> parser.errno.Some? && parser.completes == 0
  {
    hide Feed, Joined, Sane, C.AllWithinLimits, C.WellChunked, C.Message;
    parser := new Parser.ForChunks(length);
    C.MessageIsDecoded(chunks, last, length);
    ExecuteAll(parser, buffers);
  }

  /** Outside the data states a byte neither reads nor changes what was delivered. */
  lemma BodyDoesNotMatter(m: Machine, body: seq<byte>, ch: byte)
    requires !m.state.ChunkData? && !m.state.BodyIdentity?
    ensures Step(m.(body := body), ch) == Step(m, ch).(body := body) && Step(m, ch).body == m.body
  {
    hide TooLarge, Wrap64, Unhex;
  }

  lemma SaneData(m: Machine)
    requires Sane(m) && m.error.None?
    ensures m.state.ChunkData? || m.state.BodyIdentity? ==> 0 < m.contentLength < ULLONG_MAX
    ensures m.state.ChunkSizeStart? ==> m.nread == 0
  {
  }

  lemma SaneAfterData(was: Machine, m: Machine)
    requires Sane(was) && was.error.None? && m.error.None? && (was.state.ChunkData? || was.state.BodyIdentity?)
    requires 0 <= m.contentLength <= was.contentLength && m.nread == was.nread
    requires m.state == if m.contentLength > 0 then was.state
                        else if was.state.ChunkData? then ChunkDataAlmostDone else MessageDone
    ensures Sane(m)
  {
  }

  lemma SaneFailure(m: Machine, e: Errno)
    requires Sane(m)
    ensures Sane(Fail(m, e))
  {
  }

  lemma Started(m: Machine, buffer: seq<byte>)
    ensures Feed(m, buffer[..0]) == m
  {
  }
}
