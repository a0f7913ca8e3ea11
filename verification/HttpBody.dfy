/** The body states of the HTTP parser, one byte at a time. */
module HttpBody {
  import opened Bytes
  import opened Options

  const ULLONG_MAX: int := 0xFFFF_FFFF_FFFF_FFFF
  const MAX_HEADER_SIZE: int := 80 * 1024

  /** The largest chunk size the overflow test lets through. */
  const MAX_CHUNK: int := ULLONG_MAX - 16

  datatype State =
    | ChunkSizeStart | ChunkSize | ChunkParameters | ChunkSizeAlmostDone
    | ChunkData | ChunkDataAlmostDone | ChunkDataDone
    | HeaderFieldStart | HeadersAlmostDone | TrailerField
    | BodyIdentity | MessageDone

  datatype Errno = InvalidChunkSize | InvalidContentLength | HeaderOverflow | StrictCheck | InvalidEofState

  /** The parser's fields, with what the two callbacks were given: all body bytes, and how often a message ended. */
  datatype Machine = Machine(
    state: State, contentLength: int, nread: int, error: Option<Errno>, body: seq<byte>, completes: nat)

  /** States before the end of the headers count towards the header limit; those of a chunk line are among them. */
  predicate CountsAsHeader(s: State) {
    s.ChunkSizeStart? || s.ChunkSize? || s.ChunkParameters? || s.ChunkSizeAlmostDone?
    || s.HeaderFieldStart? || s.HeadersAlmostDone? || s.TrailerField?
  }

  /** The `unhex` table: its last 128 entries are not given, so they are zero. */
  function Unhex(c: byte): (v: int)
    ensures -1 <= v < 16
  {
    if 48 <= c <= 57 then c - 48
    else if 65 <= c <= 70 then c - 55
    else if 97 <= c <= 102 then c - 87
    else if c >= 128 then 0
    else -1
  }

  /** The test made before the next digit is taken up: conservative, and exact for the limit it implies. */
  predicate TooLarge(contentLength: int)
    ensures TooLarge(contentLength) <==> contentLength * 16 + 15 > MAX_CHUNK
  {
    (ULLONG_MAX - 16) / 16 < contentLength
  }

  /** A uint64 as C++ keeps it. */
  function Wrap64(x: int): (r: int)
    ensures 0 <= r <= ULLONG_MAX
    ensures 0 <= x <= ULLONG_MAX ==> r == x
  {
    x % (ULLONG_MAX + 1)
  }

  function Fail(m: Machine, e: Errno): Machine {
    m.(error := Some(e))
  }

  /** What one byte does once it is counted. */
  function Act(m: Machine, ch: byte): Machine {
    match m.state
    case ChunkSizeStart =>
      if Unhex(ch) == -1 then Fail(m, InvalidChunkSize)
      else m.(contentLength := Unhex(ch), state := ChunkSize)
    case ChunkSize =>
      if ch == CR then m.(state := ChunkSizeAlmostDone)
      else if Unhex(ch) == -1 then
        if ch == 59 || ch == SPACE then m.(state := ChunkParameters) else Fail(m, InvalidChunkSize)
      else if TooLarge(m.contentLength) then Fail(m, InvalidContentLength)
      else m.(contentLength := Wrap64(m.contentLength * 16 + Unhex(ch)))
    case ChunkParameters =>
      if ch == CR then m.(state := ChunkSizeAlmostDone) else m
    case ChunkSizeAlmostDone =>
      if ch != LF then Fail(m, StrictCheck)
      else m.(nread := 0, state := if m.contentLength == 0 then HeaderFieldStart else ChunkData)
    case ChunkData =>
      m.(contentLength := m.contentLength - 1, body := m.body + [ch],
         state := if m.contentLength == 1 then ChunkDataAlmostDone else ChunkData)
    case ChunkDataAlmostDone =>
      if ch != CR then Fail(m, StrictCheck) else m.(state := ChunkDataDone)
    case ChunkDataDone =>
      if ch != LF then Fail(m, StrictCheck) else m.(nread := 0, state := ChunkSizeStart)
    case HeaderFieldStart =>
      if ch == CR then m.(state := HeadersAlmostDone)
      else if ch == LF then m.(state := HeadersAlmostDone, completes := m.completes + 1)
      else m.(state := TrailerField)
    case HeadersAlmostDone =>
      if ch != LF then Fail(m, StrictCheck) else m.(completes := m.completes + 1)
    case TrailerField => m
    case BodyIdentity =>
      if m.contentLength == 1 then
        m.(contentLength := 0, body := m.body + [ch], state := MessageDone, completes := m.completes + 1)
      else m.(contentLength := m.contentLength - 1, body := m.body + [ch])
    case MessageDone => m.(completes := m.completes + 1)
  }

  function Step(m: Machine, ch: byte): Machine {
    if m.error.Some? then m
    else if !CountsAsHeader(m.state) then Act(m, ch)
    else if m.nread + 1 > MAX_HEADER_SIZE then Fail(m.(nread := m.nread + 1), HeaderOverflow)
    else Act(m.(nread := m.nread + 1), ch)
  }

  function Feed(m: Machine, bytes: seq<byte>): Machine
    decreases |bytes|
  {
    if bytes == [] then m else Feed(Step(m, bytes[0]), bytes[1..])
  }

  /** Buffers of any size in any number: only the concatenation matters. */
  lemma {:induction false} FeedConcat(m: Machine, a: seq<byte>, b: seq<byte>)
    ensures Feed(m, a + b) == Feed(Feed(m, a), b)
    decreases |a|
  {
    if a == [] {
      assert a + b == b;
    } else {
      assert (a + b)[1..] == a[1..] + b;
      FeedConcat(Step(m, a[0]), a[1..], b);
    }
  }

  lemma {:induction false} ErrorStays(m: Machine, bytes: seq<byte>)
    requires m.error.Some?
    ensures Feed(m, bytes) == m
    decreases |bytes|
  {
    if bytes != [] {
      ErrorStays(m, bytes[1..]);
    }
  }

  /** What holds in every reachable state: the asserts in the code, and sizes that never wrap or read as "none". */
  predicate Sane(m: Machine) {
    && 0 <= m.contentLength <= ULLONG_MAX
    && (!m.state.ChunkSizeStart? ==> m.contentLength < ULLONG_MAX)
    && 0 <= m.nread
    && (m.error.None? ==> m.nread <= MAX_HEADER_SIZE)
    && (m.state.ChunkSizeStart? && m.error.None? ==> m.nread == 0)
    && (m.state.ChunkSize? || m.state.ChunkParameters? || m.state.ChunkSizeAlmostDone? || m.state.ChunkData? ==>
          m.contentLength <= MAX_CHUNK)
    && (m.state.ChunkData? || m.state.BodyIdentity? ==> 0 < m.contentLength)
    && (m.state.ChunkDataAlmostDone? || m.state.ChunkDataDone? ==> m.contentLength == 0)
  }

  lemma StepKeepsSane(m: Machine, ch: byte)
    requires Sane(m)
    ensures Sane(Step(m, ch))
    ensures m.state.ChunkSize? && ch != CR && Unhex(ch) != -1 && Step(m, ch).error.None? ==>
      Step(m, ch).contentLength == m.contentLength * 16 + Unhex(ch) <= MAX_CHUNK
  {
    hide TooLarge, Wrap64, Unhex;
  }

  lemma {:induction false} FeedKeepsSane(m: Machine, bytes: seq<byte>)
    requires Sane(m)
    ensures Sane(Feed(m, bytes))
    decreases |bytes|
  {
    if bytes != [] {
      StepKeepsSane(m, bytes[0]);
      FeedKeepsSane(Step(m, bytes[0]), bytes[1..]);
    }
  }

  /** Reading body bytes in bulk, up to what the chunk or the message still holds. */
  lemma {:induction false} FeedData(m: Machine, bytes: seq<byte>)
    requires m.error.None? && (m.state.ChunkData? || m.state.BodyIdentity?)
    requires 0 < |bytes| <= m.contentLength
    ensures Feed(m, bytes) ==
            var rest := m.(contentLength := m.contentLength - |bytes|, body := m.body + bytes);
            if |bytes| < m.contentLength then rest
            else if m.state.ChunkData? then rest.(state := ChunkDataAlmostDone)
            else rest.(state := MessageDone, completes := m.completes + 1)
    decreases |bytes|
  {
    var next := Step(m, bytes[0]);
    if |bytes| == 1 {
      assert bytes[1..] == [];
      assert [bytes[0]] == bytes;
    } else {
      FeedData(next, bytes[1..]);
      assert m.body + [bytes[0]] + bytes[1..] == m.body + bytes;
    }
  }

  /**
   A machine at the start of a chunked body, which ignores whatever length the headers left (all ones when there
   was no Content-Length), and one at the start of a body of known length.
   */
  function Chunked(length: int): Machine {
    Machine(ChunkSizeStart, length, 0, None, [], 0)
  }

  function Identity(length: int): Machine {
    Machine(BodyIdentity, length, 0, None, [], 0)
  }
}

/** Section 4.1 of RFC 7230: chunked messages, and what the parser makes of them. */
module ChunkedCoding {
  import opened Bytes
  import opened HexDigits
  import opened Options
  import opened HttpBody

  /** A chunk as written: its size in hexadecimal, an extension, and the data. */
  datatype Chunk = Chunk(size: seq<byte>, extension: seq<byte>, data: seq<byte>)

  predicate IsHexText(ds: seq<byte>) {
    forall k :: 0 <= k < |ds| ==> Unhex(ds[k]) != -1
  }

  predicate IsAscii(ds: seq<byte>) {
    forall k :: 0 <= k < |ds| ==> ds[k] < 128
  }

  /** Bytes from 0x80 on are missing from the code's table and count as the digit zero. */
  function Zeroed(ds: seq<byte>): (r: seq<byte>)
    ensures |r| == |ds|
    ensures forall k :: 0 <= k < |ds| ==> r[k] == if ds[k] < 128 then ds[k] else 48
  {
    seq(|ds|, k requires 0 <= k < |ds| => if ds[k] < 128 then ds[k] else 48)
  }

  /** The number a text of hexadecimal digits adds to what was read before it. */
  function HexFrom(v: nat, ds: seq<byte>): (r: nat)
    requires IsHexText(ds)
    ensures r >= v
    decreases |ds|
  {
    if ds == [] then v else HexFrom(v * 16 + Unhex(ds[0]), ds[1..])
  }

  /** The table reads a digit, in either case, as what it stands for, and nothing else below 128 as a digit. */
  lemma UnhexIsDigit(c: byte, d: int)
    requires c < 128
    ensures Unhex(c) == d && d != -1 <==> Spells(c, d)
  {
    SpellsIs(c, d);
  }

  lemma {:induction false} HexFromSnoc(v: nat, ds: seq<byte>, c: byte)
    requires IsHexText(ds) && Unhex(c) != -1
    ensures IsHexText(ds + [c]) && HexFrom(v, ds + [c]) == HexFrom(v, ds) * 16 + Unhex(c)
    decreases |ds|
  {
    hide Unhex;
    if ds == [] {
      assert [] + [c] == [c] && [c][1..] == [];
    } else {
      assert (ds + [c])[1..] == ds[1..] + [c];
      HexFromSnoc(v * 16 + Unhex(ds[0]), ds[1..], c);
    }
  }

  /** The text of a number in base 16, by the tables of digits, with those bytes for zeros. */
  predicate Written(text: seq<byte>, n: int) {
    Writes(Zeroed(text), n)
  }

  /** A text is read as a number exactly when it is the text of that number. */
  lemma WrittenIsRead(text: seq<byte>, n: int)
    ensures Written(text, n) <==> text != [] && IsHexText(text) && HexFrom(0, text) == n
  {
    hide Writes, HexFrom;
    AsciiIsRead(Zeroed(text), n);
    ZeroedIsHex(text);
    if IsHexText(text) {
      ZeroedReads(0, text);
    }
  }

  lemma ZeroedIsHex(text: seq<byte>)
    ensures IsHexText(Zeroed(text)) <==> IsHexText(text)
    ensures IsAscii(Zeroed(text))
  {
    var z := Zeroed(text);
    assert forall k :: 0 <= k < |text| ==> (Unhex(z[k]) == -1 <==> Unhex(text[k]) == -1);
  }

  lemma {:induction false} ZeroedReads(v: nat, text: seq<byte>)
    requires IsHexText(text) && IsHexText(Zeroed(text))
    ensures HexFrom(v, Zeroed(text)) == HexFrom(v, text)
    decreases |text|
  {
    if text != [] {
      assert Zeroed(text)[1..] == Zeroed(text[1..]);
      assert Unhex(Zeroed(text)[0]) == Unhex(text[0]);
      hide Unhex;
      ZeroedReads(v * 16 + Unhex(text[0]), text[1..]);
    }
  }

  /** An ordinary text of digits is its own zeroed text. */
  lemma OrdinaryIsWritten(text: seq<byte>, n: int)
    ensures Writes(text, n) ==> Written(text, n)
  {
    hide Writes;
    AsciiIsRead(text, n);
    if Writes(text, n) {
      assert Zeroed(text) == text;
    }
  }

  lemma {:induction false} AsciiIsRead(text: seq<byte>, n: int)
    ensures Writes(text, n) <==> text != [] && IsHexText(text) && IsAscii(text) && HexFrom(0, text) == n
    decreases |text|
  {
    hide Unhex, Spells;
    if text != [] {
      var front, c := text[..|text| - 1], text[|text| - 1];
      assert text == front + [c];
      SnocIsAscii(front, c);
      if Writes(text, n) || (IsHexText(text) && IsAscii(text)) {
        LastDigit(text, n);
        UnhexIsDigit(c, n % 16);
        UnhexIsDigit(c, Unhex(c));
        UnhexIsDigit(c, n);
        UnhexRange(c);
        if |text| == 1 {
          HexFromSnoc(0, [], c);
          assert [] + [c] == text;
        } else {
          AsciiIsRead(front, n / 16);
          if IsHexText(front) {
            HexFromSnoc(0, front, c);
            if IsHexText(text) {
              AsciiIsRead(front, HexFrom(0, front));
            }
          }
        }
      }
    }
  }

  lemma SnocIsAscii(ds: seq<byte>, c: byte)
    ensures IsAscii(ds + [c]) <==> IsAscii(ds) && c < 128
  {
    if IsAscii(ds + [c]) {
      assert (ds + [c])[|ds|] == c;
      assert forall k :: 0 <= k < |ds| ==> (ds + [c])[k] == ds[k];
    }
  }

  lemma LastDigit(text: seq<byte>, n: int)
    requires text != [] && (Writes(text, n) || (IsHexText(text) && IsAscii(text)))
    ensures text[|text| - 1] < 128
  {
    if Writes(text, n) {
      SpellsIs(text[|text| - 1], if |text| == 1 then n else n % 16);
    }
  }

  lemma UnhexRange(c: byte)
    ensures -1 <= Unhex(c) < 16
  {
  }

  predicate WellFormed(c: Chunk) {
    && Written(c.size, |c.data|)
    && (c.extension != [] ==> c.extension[0] == 59 || c.extension[0] == SPACE)
    && CR !in c.extension
  }

  function Line(c: Chunk): seq<byte> {
    c.size + c.extension + [CR, LF]
  }

  function EncodedChunk(c: Chunk): seq<byte> {
    Line(c) + c.data + [CR, LF]
  }

  function EncodedChunks(chunks: seq<Chunk>): seq<byte> {
    if chunks == [] then [] else EncodedChunk(chunks[0]) + EncodedChunks(chunks[1..])
  }

  /** A whole body: chunks with data, the chunk of size zero, an empty trailer. */
  function Message(chunks: seq<Chunk>, last: Chunk): seq<byte> {
    EncodedChunks(chunks) + (Line(last) + [CR, LF])
  }

  function Payload(chunks: seq<Chunk>): seq<byte> {
    if chunks == [] then [] else chunks[0].data + Payload(chunks[1..])
  }

  /** Within the parser's limits: on a chunk line with its line end, and on the size of a chunk. */
  predicate WithinLimits(c: Chunk) {
    |Line(c)| <= MAX_HEADER_SIZE && |c.data| <= MAX_CHUNK
  }

  lemma UnhexOfReturn()
    ensures Unhex(CR) == -1
  {
  }

  /** Digits are taken up exactly, unless the value or the line outgrows its limit. */
  lemma {:induction false} FeedDigits(m: Machine, ds: seq<byte>)
    requires m.error.None? && m.state.ChunkSize? && IsHexText(ds)
    requires 0 <= m.contentLength <= MAX_CHUNK && 0 <= m.nread <= MAX_HEADER_SIZE
    ensures
      if m.nread + |ds| <= MAX_HEADER_SIZE && HexFrom(m.contentLength, ds) <= MAX_CHUNK then
        Feed(m, ds) == m.(contentLength := HexFrom(m.contentLength, ds), nread := m.nread + |ds|)
      else Feed(m, ds).error.Some? && Feed(m, ds).body == m.body && Feed(m, ds).completes == m.completes
    decreases |ds|
  {
    hide TooLarge, Wrap64, Unhex;
    if ds != [] {
      assert Unhex(ds[0]) != -1 && ds[0] != CR by {
        assert Unhex(CR) == -1 by {
          UnhexOfReturn();
        }
      }
      var next := Step(m, ds[0]);
      if next.error.Some? {
        ErrorStays(next, ds[1..]);
        var v := m.contentLength * 16 + Unhex(ds[0]);
        assert HexFrom(m.contentLength, ds) == HexFrom(v, ds[1..]) >= v;
      } else {
        FeedDigits(next, ds[1..]);
      }
    }
  }

  /** Anything but a carriage return inside an extension is skipped, as far as the line may be long. */
  lemma {:induction false} FeedExtension(m: Machine, ext: seq<byte>)
    requires m.error.None? && m.state.ChunkParameters? && CR !in ext && 0 <= m.nread <= MAX_HEADER_SIZE
    ensures
      if m.nread + |ext| <= MAX_HEADER_SIZE then Feed(m, ext) == m.(nread := m.nread + |ext|)
      else Feed(m, ext).error.Some? && Feed(m, ext).body == m.body && Feed(m, ext).completes == m.completes
    decreases |ext|
  {
    if ext != [] {
      assert ext[0] in ext;
      assert forall x <- ext[1..] :: x in ext;
      var next := Step(m, ext[0]);
      if next.error.Some? {
        ErrorStays(next, ext[1..]);
      } else {
        FeedExtension(next, ext[1..]);
      }
    }
  }

  /** Whether the machine failed without delivering or completing anything since. */
  predicate FailedQuietly(now: Machine, was: Machine) {
    now.error.Some? && now.body == was.body && now.completes == was.completes
  }

  /** The size, up to the byte that is not a digit. */
  lemma FeedSize(m: Machine, size: seq<byte>)
    requires m.error.None? && m.state.ChunkSizeStart? && m.nread == 0 && size != [] && IsHexText(size)
    ensures
      if |size| <= MAX_HEADER_SIZE && HexFrom(0, size) <= MAX_CHUNK then
        Feed(m, size) == m.(state := ChunkSize, contentLength := HexFrom(0, size), nread := |size|)
      else FailedQuietly(Feed(m, size), m)
  {
    hide TooLarge, Wrap64, Unhex;
    var next := Step(m, size[0]);
    assert Unhex(size[0]) != -1;
    assert next == m.(state := ChunkSize, contentLength := Unhex(size[0]), nread := 1);
    FeedDigits(next, size[1..]);
  }

  /** The extension and the line end. */
  lemma FeedLineEnd(m: Machine, ext: seq<byte>)
    requires m.error.None? && m.state.ChunkSize? && 0 <= m.nread <= MAX_HEADER_SIZE
    requires (ext != [] ==> ext[0] == 59 || ext[0] == SPACE) && CR !in ext
    ensures
      if m.nread + |ext| + 2 <= MAX_HEADER_SIZE then
        Feed(m, ext + [CR, LF]) ==
        m.(nread := 0, state := if m.contentLength == 0 then HeaderFieldStart else ChunkData)
      else FailedQuietly(Feed(m, ext + [CR, LF]), m)
  {
    FeedConcat(m, ext, [CR, LF]);
    var after := Feed(m, ext);
    FeedWholeExtension(m, ext);
    hide TooLarge, Wrap64, Feed;
    if after.error.Some? {
      ErrorStays(after, [CR, LF]);
    } else {
      TwoBytes(after, CR, LF);
    }
  }

  lemma FeedWholeExtension(m: Machine, ext: seq<byte>)
    requires m.error.None? && m.state.ChunkSize? && 0 <= m.nread <= MAX_HEADER_SIZE
    requires (ext != [] ==> ext[0] == 59 || ext[0] == SPACE) && CR !in ext
    ensures
      if m.nread + |ext| <= MAX_HEADER_SIZE then
        Feed(m, ext) == m.(nread := m.nread + |ext|, state := if ext == [] then ChunkSize else ChunkParameters)
      else FailedQuietly(Feed(m, ext), m)
  {
    hide TooLarge, Wrap64;
    if ext != [] {
      assert forall x <- ext[1..] :: x in ext;
      var next := Step(m, ext[0]);
      if next.error.Some? {
        ErrorStays(next, ext[1..]);
      } else {
        FeedExtension(next, ext[1..]);
      }
    }
  }

  lemma TwoBytes(m: Machine, a: byte, b: byte)
    ensures Feed(m, [a, b]) == Step(Step(m, a), b)
  {
    OneByte(m, a);
    OneByte(Step(m, a), b);
    assert [a, b] == [a] + [b];
    FeedConcat(m, [a], [b]);
  }

  lemma OneByte(m: Machine, b: byte)
    ensures Feed(m, [b]) == Step(m, b)
  {
    assert [b][1..] == [];
  }

  /** A chunk line: the data is announced in full, or the line is refused because of a limit. */
  lemma FeedLine(m: Machine, c: Chunk)
    requires m.error.None? && m.state.ChunkSizeStart? && m.nread == 0 && WellFormed(c)
    ensures
      if WithinLimits(c) then
        Feed(m, Line(c)) ==
        m.(contentLength := |c.data|, state := if c.data == [] then HeaderFieldStart else ChunkData)
      else FailedQuietly(Feed(m, Line(c)), m)
  {
    hide Feed, HexFrom, Written;
    WrittenIsRead(c.size, |c.data|);
    assert Line(c) == c.size + (c.extension + [CR, LF]);
    FeedConcat(m, c.size, c.extension + [CR, LF]);
    FeedSize(m, c.size);
    var after := Feed(m, c.size);
    if after.error.Some? {
      ErrorStays(after, c.extension + [CR, LF]);
    } else {
      FeedLineEnd(after, c.extension);
    }
  }

  /** A chunk with data leaves the machine where it was, with the data delivered. */
  lemma FeedChunk(m: Machine, c: Chunk)
    requires m.error.None? && m.state.ChunkSizeStart? && m.nread == 0 && WellFormed(c) && c.data != []
    ensures
      if WithinLimits(c) then Feed(m, EncodedChunk(c)) == m.(contentLength := 0, body := m.body + c.data)
      else FailedQuietly(Feed(m, EncodedChunk(c)), m)
  {
    hide Feed, WellFormed, Line, WithinLimits;
    assert EncodedChunk(c) == Line(c) + (c.data + [CR, LF]);
    FeedConcat(m, Line(c), c.data + [CR, LF]);
    FeedLine(m, c);
    var after := Feed(m, Line(c));
    if after.error.Some? {
      ErrorStays(after, c.data + [CR, LF]);
    } else {
      FeedConcat(after, c.data, [CR, LF]);
      FeedData(after, c.data);
      TwoBytes(Feed(after, c.data), CR, LF);
    }
  }

  lemma {:induction false} FeedChunks(m: Machine, chunks: seq<Chunk>)
    requires m.error.None? && m.state.ChunkSizeStart? && m.nread == 0
    requires forall c <- chunks :: WellFormed(c) && c.data != []
    ensures
      if forall c <- chunks :: WithinLimits(c) then
        Feed(m, EncodedChunks(chunks)) ==
        m.(contentLength := if chunks == [] then m.contentLength else 0, body := m.body + Payload(chunks))
      else Feed(m, EncodedChunks(chunks)).error.Some? && Feed(m, EncodedChunks(chunks)).completes == m.completes
    decreases |chunks|
  {
    hide Feed, WellFormed, WithinLimits;
    if chunks == [] {
      NothingToFeed(m);
      assert m.body + [] == m.body;
    } else {
      var c, rest := chunks[0], chunks[1..];
      FeedConcat(m, EncodedChunk(c), EncodedChunks(rest));
      FeedChunk(m, c);
      var after := Feed(m, EncodedChunk(c));
      if after.error.Some? {
        ErrorStays(after, EncodedChunks(rest));
      } else {
        assert forall x <- chunks :: x == c || x in rest;
        FeedChunks(after, rest);
        assert m.body + c.data + Payload(rest) == m.body + (c.data + Payload(rest));
      }
    }
  }

  lemma NothingToFeed(m: Machine)
    ensures Feed(m, []) == m
  {
  }

  lemma {:induction false} CompletionsOnlyGrow(m: Machine, bytes: seq<byte>)
    ensures Feed(m, bytes).completes >= m.completes
    decreases |bytes|
  {
    if bytes != [] {
      CompletionsOnlyGrow(Step(m, bytes[0]), bytes[1..]);
    }
  }

  predicate WellChunked(chunks: seq<Chunk>, last: Chunk) {
    && (forall c <- chunks :: WellFormed(c) && c.data != [])
    && WellFormed(last) && last.data == []
  }

  predicate AllWithinLimits(chunks: seq<Chunk>, last: Chunk) {
    (forall c <- chunks :: WithinLimits(c)) && WithinLimits(last)
  }

  /** A message up to its last byte. */
  function Head(chunks: seq<Chunk>, last: Chunk): seq<byte> {
    EncodedChunks(chunks) + (Line(last) + [CR])
  }

  lemma HeadIsRead(chunks: seq<Chunk>, last: Chunk, length: int)
    requires WellChunked(chunks, last)
    ensures var m := Feed(Chunked(length), Head(chunks, last));
      if AllWithinLimits(chunks, last) then m == Machine(HeadersAlmostDone, 0, 1, None, Payload(chunks), 0)
      else m.error.Some? && m.completes == 0
  {
    hide Feed, WellFormed, WithinLimits, Line;
    FeedConcat(Chunked(length), EncodedChunks(chunks), Line(last) + [CR]);
    FeedChunks(Chunked(length), chunks);
    var before := Feed(Chunked(length), EncodedChunks(chunks));
    assert [] + Payload(chunks) == Payload(chunks);
    if before.error.Some? {
      ErrorStays(before, Line(last) + [CR]);
    } else {
      FeedConcat(before, Line(last), [CR]);
      FeedLine(before, last);
      var after := Feed(before, Line(last));
      OneByte(after, CR);
    }
  }

  /** Where a trailer field begins, the whole payload has been delivered and the message is not yet complete. */
  lemma TrailerFindsPayload(chunks: seq<Chunk>, last: Chunk, length: int, c: byte)
    requires WellChunked(chunks, last) && AllWithinLimits(chunks, last) && c != CR && c != LF
    ensures var m := Feed(Chunked(length), EncodedChunks(chunks) + (Line(last) + [c]));
      m.body == Payload(chunks) && m.completes == 0
  {
    hide Feed, WellFormed, WithinLimits, Line;
    FeedConcat(Chunked(length), EncodedChunks(chunks), Line(last) + [c]);
    FeedChunks(Chunked(length), chunks);
    var before := Feed(Chunked(length), EncodedChunks(chunks));
    assert [] + Payload(chunks) == Payload(chunks);
    FeedConcat(before, Line(last), [c]);
    FeedLine(before, last);
    OneByte(Feed(before, Line(last)), c);
  }

  /**
   Every body encoded as section 4.1 of RFC 7230 says, with an empty trailer, is decoded to the concatenation of
   its chunks and completes once; it is refused exactly when a line or a size is over the limits.
   */
  lemma MessageIsDecoded(chunks: seq<Chunk>, last: Chunk, length: int)
    requires WellChunked(chunks, last)
    ensures var m := Feed(Chunked(length), Message(chunks, last));
      if AllWithinLimits(chunks, last) then m == Machine(HeadersAlmostDone, 0, 2, None, Payload(chunks), 1)
      else m.error.Some? && m.completes == 0
  {
    hide Feed, AllWithinLimits, WellChunked, Line, EncodedChunks;
    HeadIsRead(chunks, last, length);
    MessageEnd(chunks, last);
    FeedConcat(Chunked(length), Head(chunks, last), [LF]);
    OneByte(Feed(Chunked(length), Head(chunks, last)), LF);
  }

  lemma MessageEnd(chunks: seq<Chunk>, last: Chunk)
    ensures Message(chunks, last) == Head(chunks, last) + [LF]
  {
    hide Line, EncodedChunks;
    assert [CR, LF] == [CR] + [LF];
  }

  /** Completion comes with the last byte: no proper prefix of a message completes it, or fails. */
  lemma NothingCompletesEarlier(chunks: seq<Chunk>, last: Chunk, length: int, n: nat)
    requires WellChunked(chunks, last) && AllWithinLimits(chunks, last) && n < |Message(chunks, last)|
    ensures Feed(Chunked(length), Message(chunks, last)[..n]).completes == 0
    ensures Feed(Chunked(length), Message(chunks, last)[..n]).error.None?
  {
    hide Feed, WellChunked, AllWithinLimits, Head, Message;
    var head := Head(chunks, last);
    HeadIsRead(chunks, last, length);
    MessageEnd(chunks, last);
    var front, rest := head[..n], head[n..];
    assert Message(chunks, last)[..n] == front && head == front + rest;
    FeedConcat(Chunked(length), front, rest);
    CompletionsOnlyGrow(Feed(Chunked(length), front), rest);
    if Feed(Chunked(length), front).error.Some? {
      ErrorStays(Feed(Chunked(length), front), rest);
    }
  }

  /** How many line feeds the bytes start with. */
  function LineFeeds(bytes: seq<byte>): (n: nat)
    ensures n <= |bytes|
  {
    if bytes == [] || bytes[0] != LF then 0 else 1 + LineFeeds(bytes[1..])
  }

  lemma {:induction false} TrailingLineFeeds(m: Machine, tail: seq<byte>)
    requires m.error.None? && m.state.HeadersAlmostDone? && 0 <= m.nread <= MAX_HEADER_SIZE
    ensures Feed(m, tail).completes == m.completes +
            var room := MAX_HEADER_SIZE - m.nread; if LineFeeds(tail) < room then LineFeeds(tail) else room
    decreases |tail|
  {
    if tail != [] {
      var next := Step(m, tail[0]);
      if next.error.Some? {
        ErrorStays(next, tail[1..]);
      } else {
        TrailingLineFeeds(next, tail[1..]);
      }
    }
  }

  /**
   Nothing resets the state at the end of a chunked message: every line feed that follows at once reports it
   again, until another byte, or the header limit, stops the parser. So it completes once if and only if the next
   byte, if any, is not a line feed.
   */
  lemma CompletionsWithTail(chunks: seq<Chunk>, last: Chunk, length: int, tail: seq<byte>)
    requires WellChunked(chunks, last) && AllWithinLimits(chunks, last)
    ensures Feed(Chunked(length), Message(chunks, last) + tail).completes ==
            1 + if LineFeeds(tail) < MAX_HEADER_SIZE - 2 then LineFeeds(tail) else MAX_HEADER_SIZE - 2
    ensures Feed(Chunked(length), Message(chunks, last) + tail).completes == 1 <==> tail == [] || tail[0] != LF
  {
    hide Feed, WellChunked, AllWithinLimits, Message;
    MessageIsDecoded(chunks, last, length);
    FeedConcat(Chunked(length), Message(chunks, last), tail);
    TrailingLineFeeds(Feed(Chunked(length), Message(chunks, last)), tail);
  }

  /** A body of known length is delivered whole and completes with its last byte, not before. */
  lemma IdentityIsDelivered(bytes: seq<byte>, n: nat)
    requires 0 < |bytes| < ULLONG_MAX && n <= |bytes|
    ensures var m := Feed(Identity(|bytes|), bytes[..n]);
      m.error.None? && m.body == bytes[..n] && m.completes == if n == |bytes| then 1 else 0
  {
    hide Feed;
    NothingToFeed(Identity(|bytes|));
    if n > 0 {
      FeedData(Identity(|bytes|), bytes[..n]);
      assert [] + bytes[..n] == bytes[..n];
    }
  }

  lemma {:induction false} DoneCompletesAgain(m: Machine, tail: seq<byte>)
    requires m.error.None? && m.state.MessageDone?
    ensures Feed(m, tail).completes == m.completes + |tail|
    decreases |tail|
  {
    if tail != [] {
      DoneCompletesAgain(Step(m, tail[0]), tail[1..]);
    }
  }

  /** After a body of known length every further byte, whatever it is, reports the message once more. */
  lemma IdentityWithTail(bytes: seq<byte>, tail: seq<byte>)
    requires 0 < |bytes| < ULLONG_MAX
    ensures Feed(Identity(|bytes|), bytes + tail).completes == 1 + |tail|
  {
    hide Feed;
    FeedConcat(Identity(|bytes|), bytes, tail);
    FeedData(Identity(|bytes|), bytes);
    DoneCompletesAgain(Feed(Identity(|bytes|), bytes), tail);
  }
}
