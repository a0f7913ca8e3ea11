/** The converse of decoding: nothing but a chunked message completes. */
module ChunkedAcceptance {
  import opened Bytes
  import opened HttpBody
  import opened ChunkedCoding

  /** At the start of a chunk line. */
  predicate Ready(m: Machine) {
    m.error.None? && m.state.ChunkSizeStart? && m.nread == 0
  }

  /** What completes: a message with an empty trailer, or with a bare line feed for the line end of the empty trailer. */
  function Whole(chunks: seq<Chunk>, last: Chunk, bare: bool): seq<byte> {
    EncodedChunks(chunks) + (Line(last) + if bare then [LF] else [CR, LF])
  }

  predicate Completes(chunks: seq<Chunk>, last: Chunk) {
    WellChunked(chunks, last) && AllWithinLimits(chunks, last)
  }

  lemma WholeIsRead(chunks: seq<Chunk>, last: Chunk, bare: bool, length: int)
    requires Completes(chunks, last)
    ensures var m := Feed(Chunked(length), Whole(chunks, last, bare));
      m.error.None? && m.state.HeadersAlmostDone? && m.body == Payload(chunks) && m.completes == 1
  {
    if bare {
      BareIsRead(chunks, last, length);
    } else {
      hide Feed, Completes, WellChunked, AllWithinLimits, EncodedChunks, Line;
      assert Whole(chunks, last, bare) == Message(chunks, last);
      assert WellChunked(chunks, last) && AllWithinLimits(chunks, last) by { CompletesIs(chunks, last); }
      MessageIsDecoded(chunks, last, length);
    }
  }

  lemma CompletesIs(chunks: seq<Chunk>, last: Chunk)
    requires Completes(chunks, last)
    ensures WellChunked(chunks, last) && AllWithinLimits(chunks, last)
  {
  }

  lemma BareIsRead(chunks: seq<Chunk>, last: Chunk, length: int)
    requires Completes(chunks, last)
    ensures var m := Feed(Chunked(length), Whole(chunks, last, true));
      m.error.None? && m.state.HeadersAlmostDone? && m.body == Payload(chunks) && m.completes == 1
  {
    hide Feed, WellFormed, WithinLimits, Line;
    FeedConcat(Chunked(length), EncodedChunks(chunks), Line(last) + [LF]);
    FeedChunks(Chunked(length), chunks);
    var before := Feed(Chunked(length), EncodedChunks(chunks));
    assert [] + Payload(chunks) == Payload(chunks);
    FeedConcat(before, Line(last), [LF]);
    FeedLine(before, last);
    OneByte(Feed(before, Line(last)), LF);
  }

  /** After the end no body byte is delivered any more. */
  lemma {:induction false} BodyIsFinal(m: Machine, tail: seq<byte>)
    requires m.state.HeadersAlmostDone? || m.error.Some?
    ensures Feed(m, tail).body == m.body
    decreases |tail|
  {
    if tail != [] {
      BodyIsFinal(Step(m, tail[0]), tail[1..]);
    }
  }

  /** A machine that failed, or strayed into a trailer field, without completing never completes. */
  lemma {:induction false} NeverCompletes(m: Machine, tail: seq<byte>)
    requires m.error.Some? || m.state.TrailerField?
    ensures Feed(m, tail).completes == m.completes
    decreases |tail|
  {
    if tail != [] {
      NeverCompletes(Step(m, tail[0]), tail[1..]);
    }
  }

  lemma FirstByte(m: Machine, bytes: seq<byte>)
    requires bytes != []
    ensures Feed(m, bytes) == Feed(Step(m, bytes[0]), bytes[1..])
  {
  }

  /** How many digits the bytes start with. */
  function DigitRun(bytes: seq<byte>): (n: nat)
    ensures n <= |bytes| && IsHexText(bytes[..n]) && (n < |bytes| ==> Unhex(bytes[n]) == -1)
  {
    if bytes == [] || Unhex(bytes[0]) == -1 then 0
    else
      var n := DigitRun(bytes[1..]);
      assert forall k :: 0 <= k < n ==> bytes[k + 1] == bytes[1..][..n][k];
      1 + n
  }

  /** How many bytes come before the first carriage return. */
  function ReturnAt(bytes: seq<byte>): (n: nat)
    ensures n <= |bytes| && CR !in bytes[..n] && (n < |bytes| ==> bytes[n] == CR)
  {
    if bytes == [] || bytes[0] == CR then 0
    else
      var n := ReturnAt(bytes[1..]);
      assert bytes[..n + 1] == [bytes[0]] + bytes[1..][..n];
      1 + n
  }

  lemma Quits(m: Machine, a: seq<byte>, b: seq<byte>)
    requires var now := Feed(m, a); now.completes == m.completes && (now.error.Some? || now.state.TrailerField?)
    ensures Feed(m, a + b).completes == m.completes
  {
    hide Feed;
    FeedConcat(m, a, b);
    NeverCompletes(Feed(m, a), b);
  }

  /** One byte that fails. */
  lemma QuitsAtOnce(m: Machine, bytes: seq<byte>)
    requires bytes != []
    requires var now := Step(m, bytes[0]); now.completes == m.completes && (now.error.Some? || now.state.TrailerField?)
    ensures Feed(m, bytes).completes == m.completes
  {
    hide Feed, Step;
    OneByte(m, bytes[0]);
    assert bytes == [bytes[0]] + bytes[1..];
    Quits(m, [bytes[0]], bytes[1..]);
  }

  /** In the states of two fixed bytes: completing takes at least this byte, and it is the one expected. */
  lemma ByteIs(m: Machine, bytes: seq<byte>, expected: byte)
    requires m.error.None? && Feed(m, bytes).completes > m.completes
    requires forall ch: byte :: Step(m, ch).completes == m.completes && (ch != expected ==> Step(m, ch).error.Some?)
    ensures bytes != [] && bytes[0] == expected && Feed(Step(m, expected), bytes[1..]) == Feed(m, bytes)
  {
    hide Step;
    if bytes == [] {
      NothingToFeed(m);
      assert false;
    }
    FirstByte(m, bytes);
    if bytes[0] != expected {
      QuitsAtOnce(m, bytes);
      assert false;
    }
  }

  /** The bytes after the size: an extension, and the line end. */
  lemma LineHasEnd(m: Machine, bytes: seq<byte>) returns (ext: seq<byte>)
    requires m.error.None? && m.state.ChunkSize? && 0 <= m.nread <= MAX_HEADER_SIZE
    requires Feed(m, bytes).completes > m.completes && (bytes != [] ==> Unhex(bytes[0]) == -1)
    ensures (ext != [] ==> ext[0] == 59 || ext[0] == SPACE) && CR !in ext
    ensures ext + [CR, LF] <= bytes && m.nread + |ext| + 2 <= MAX_HEADER_SIZE
  {
    hide Feed;
    NothingToFeed(m);
    var e := ReturnAt(bytes);
    ext := bytes[..e];
    if ext != [] && ext[0] != 59 && ext[0] != SPACE {
      assert ext[0] in ext;
      QuitsAtOnce(m, bytes);
      assert false;
    }
    assert bytes == ext + bytes[e..];
    FeedWholeExtension(m, ext);
    FeedConcat(m, ext, bytes[e..]);
    var after := Feed(m, ext);
    if after.error.Some? {
      Quits(m, ext, bytes[e..]);
      assert false;
    }
    assert e < |bytes| by {
      assert bytes[|bytes|..] == [];
      NothingToFeed(after);
    }
    var rest := bytes[e..];
    assert rest[0] == CR;
    FirstByte(after, rest);
    LineFeedFollows(after, rest);
    assert ext + [CR, LF] <= bytes by {
      assert bytes[e] == CR && bytes[e + 1] == rest[1] == LF;
    }
    FeedLineEnd(m, ext);
    if m.nread + |ext| + 2 > MAX_HEADER_SIZE {
      var line := ext + [CR, LF];
      AfterPrefix(line, bytes);
      Quits(m, line, bytes[|line|..]);
      assert false;
    }
  }

  lemma AfterPrefix(front: seq<byte>, bytes: seq<byte>)
    requires front <= bytes
    ensures bytes == front + bytes[|front|..]
  {
  }

  lemma LineFeedFollows(m: Machine, rest: seq<byte>)
    requires m.error.None? && (m.state.ChunkSize? || m.state.ChunkParameters?) && 0 <= m.nread
    requires Feed(m, rest).completes > m.completes && rest != [] && rest[0] == CR
    ensures |rest| >= 2 && rest[1] == LF
  {
    FirstByte(m, rest);
    var next := Step(m, CR);
    hide Feed;
    if next.error.Some? {
      QuitsAtOnce(m, rest);
      assert false;
    }
    ByteIs(next, rest[1..], LF);
  }

  /** The size: at least one digit, and no more than the limits allow. */
  lemma SizeIsRead(m: Machine, bytes: seq<byte>) returns (size: seq<byte>)
    requires Ready(m) && Feed(m, bytes).completes > m.completes
    ensures size != [] && IsHexText(size) && size <= bytes && |size| <= MAX_HEADER_SIZE && HexFrom(0, size) <= MAX_CHUNK
    ensures |size| < |bytes| ==> Unhex(bytes[|size|]) == -1
    ensures var after := m.(state := ChunkSize, contentLength := HexFrom(0, size), nread := |size|);
      Feed(m, size) == after && Feed(after, bytes[|size|..]) == Feed(m, bytes)
  {
    hide Feed, Unhex;
    NothingToFeed(m);
    size := bytes[..DigitRun(bytes)];
    if size == [] {
      QuitsAtOnce(m, bytes);
      assert false;
    }
    var rest := bytes[|size|..];
    assert bytes == size + rest;
    FeedSize(m, size);
    FeedConcat(m, size, rest);
    if Feed(m, size).error.Some? {
      Quits(m, size, rest);
      assert false;
    }
  }

  /** A whole chunk line, and the machine after it. */
  lemma LineIsRead(m: Machine, bytes: seq<byte>) returns (size: seq<byte>, ext: seq<byte>)
    requires Ready(m) && Feed(m, bytes).completes > m.completes
    ensures size != [] && IsHexText(size) && HexFrom(0, size) <= MAX_CHUNK
    ensures (ext != [] ==> ext[0] == 59 || ext[0] == SPACE) && CR !in ext
    ensures size + ext + [CR, LF] <= bytes && |size + ext + [CR, LF]| <= MAX_HEADER_SIZE
    ensures var v := HexFrom(0, size);
      Feed(m.(contentLength := v, state := if v == 0 then HeaderFieldStart else ChunkData),
           bytes[|size + ext + [CR, LF]|..]) == Feed(m, bytes)
  {
    hide Feed, Unhex, HexFrom, IsHexText;
    size := SizeIsRead(m, bytes);
    var v, rest := HexFrom(0, size), bytes[|size|..];
    var after := m.(state := ChunkSize, contentLength := v, nread := |size|);
    ext := LineHasEnd(after, rest);
    var end := ext + [CR, LF];
    FeedLineEnd(after, ext);
    FeedConcat(after, end, rest[|end|..]);
    assert rest == end + rest[|end|..];
    assert bytes == size + rest && size + ext + [CR, LF] == size + end;
    assert bytes[|size + end|..] == rest[|end|..];
  }

  /** The data of a chunk and its line end. */
  lemma DataIsRead(m: Machine, bytes: seq<byte>)
    requires m.error.None? && m.state.ChunkData? && 0 < m.contentLength && Feed(m, bytes).completes > m.completes
    ensures |bytes| >= m.contentLength + 2
    ensures bytes[m.contentLength] == CR && bytes[m.contentLength + 1] == LF
  {
    hide Feed;
    NothingToFeed(m);
    var n := m.contentLength;
    if |bytes| < n {
      FeedData(m, bytes);
      assert false;
    }
    var data, rest := bytes[..n], bytes[n..];
    assert bytes == data + rest;
    FeedData(m, data);
    FeedConcat(m, data, rest);
    var after := Feed(m, data);
    ByteIs(after, rest, CR);
    ByteIs(Step(after, CR), rest[1..], LF);
  }

  /** The first chunk of what completes. */
  lemma ChunkIsRead(m: Machine, bytes: seq<byte>) returns (c: Chunk)
    requires Ready(m) && Feed(m, bytes).completes > m.completes
    ensures WellFormed(c) && WithinLimits(c)
    ensures (if c.data == [] then Line(c) else EncodedChunk(c)) <= bytes
  {
    hide Feed, Unhex, HexFrom, IsHexText, Written;
    var size, ext := LineIsRead(m, bytes);
    var v, line := HexFrom(0, size), size + ext + [CR, LF];
    var tail := bytes[|line|..];
    WrittenIsRead(size, v);
    if v == 0 {
      c := Chunk(size, ext, []);
    } else {
      DataIsRead(m.(contentLength := v, state := ChunkData), tail);
      c := Chunk(size, ext, tail[..v]);
      assert tail == c.data + [CR, LF] + tail[v + 2..];
      assert bytes == line + tail;
      assert bytes == EncodedChunk(c) + tail[v + 2..];
    }
  }

  /** The empty trailer. */
  lemma TrailerIsRead(m: Machine, bytes: seq<byte>) returns (bare: bool)
    requires m.error.None? && m.state.HeaderFieldStart? && m.nread == 0 && Feed(m, bytes).completes > m.completes
    ensures (if bare then [LF] else [CR, LF]) <= bytes
  {
    hide Feed;
    NothingToFeed(m);
    bare := bytes[0] == LF;
    if bytes[0] != LF && bytes[0] != CR {
      QuitsAtOnce(m, bytes);
      assert false;
    }
    if !bare {
      FirstByte(m, bytes);
      LineFeedCompletes(Step(m, CR), bytes[1..]);
    }
  }

  lemma LineFeedCompletes(m: Machine, bytes: seq<byte>)
    requires m.error.None? && m.state.HeadersAlmostDone? && 0 <= m.nread <= 1 && Feed(m, bytes).completes > m.completes
    ensures bytes != [] && bytes[0] == LF
  {
    hide Feed;
    NothingToFeed(m);
    if bytes[0] != LF {
      QuitsAtOnce(m, bytes);
      assert false;
    }
  }

  /** Whatever completes begins with a message. */
  lemma {:induction false} MessageIsRead(m: Machine, bytes: seq<byte>)
    returns (chunks: seq<Chunk>, last: Chunk, bare: bool)
    requires Ready(m) && Feed(m, bytes).completes > m.completes
    ensures Completes(chunks, last) && Whole(chunks, last, bare) <= bytes
    decreases |bytes|
  {
    hide Feed, WellFormed, WithinLimits, Line;
    var c := ChunkIsRead(m, bytes);
    if c.data == [] {
      var tail := bytes[|Line(c)|..];
      assert bytes == Line(c) + tail;
      FeedConcat(m, Line(c), tail);
      FeedLine(m, c);
      bare := TrailerIsRead(Feed(m, Line(c)), tail);
      chunks, last := [], c;
    } else {
      var first := EncodedChunk(c);
      var tail := bytes[|first|..];
      assert bytes == first + tail;
      FeedConcat(m, first, tail);
      FeedChunk(m, c);
      var rest;
      rest, last, bare := MessageIsRead(Feed(m, first), tail);
      chunks := [c] + rest;
      WholeOfMore(c, rest, last, bare);
    }
  }

  lemma WholeOfMore(c: Chunk, rest: seq<Chunk>, last: Chunk, bare: bool)
    requires WellFormed(c) && WithinLimits(c) && c.data != [] && Completes(rest, last)
    ensures Whole([c] + rest, last, bare) == EncodedChunk(c) + Whole(rest, last, bare) && Completes([c] + rest, last)
  {
    hide WellFormed, WithinLimits, Line, EncodedChunk;
    assert ([c] + rest)[1..] == rest;
    var end := Line(last) + if bare then [LF] else [CR, LF];
    assert EncodedChunk(c) + EncodedChunks(rest) + end == EncodedChunk(c) + (EncodedChunks(rest) + end);
  }

  /**
   A chunked body completes if and only if it begins with a message within the limits, its last line end a bare line
   feed at most; whatever follows, what was delivered is the payload of that message.
   */
  lemma CompletesIff(bytes: seq<byte>, length: int)
    ensures Feed(Chunked(length), bytes).completes > 0 <==>
            exists chunks, last, bare :: Completes(chunks, last) && Whole(chunks, last, bare) <= bytes
    ensures forall chunks, last, bare :: Completes(chunks, last) && Whole(chunks, last, bare) <= bytes ==>
              Feed(Chunked(length), bytes).body == Payload(chunks)
  {
    hide Feed, Completes, Whole, Payload;
    forall chunks, last, bare | Completes(chunks, last) && Whole(chunks, last, bare) <= bytes
      ensures Feed(Chunked(length), bytes).completes > 0 && Feed(Chunked(length), bytes).body == Payload(chunks)
    {
      WholeAndMore(chunks, last, bare, bytes, length);
    }
    if Feed(Chunked(length), bytes).completes > 0 {
      var chunks, last, bare := MessageIsRead(Chunked(length), bytes);
    }
  }

  lemma WholeAndMore(chunks: seq<Chunk>, last: Chunk, bare: bool, bytes: seq<byte>, length: int)
    requires Completes(chunks, last) && Whole(chunks, last, bare) <= bytes
    ensures Feed(Chunked(length), bytes).completes > 0 && Feed(Chunked(length), bytes).body == Payload(chunks)
  {
    hide Feed, Completes, Whole, Payload;
    var whole := Whole(chunks, last, bare);
    var tail := bytes[|whole|..];
    assert bytes == whole + tail;
    WholeIsRead(chunks, last, bare, length);
    FeedConcat(Chunked(length), whole, tail);
    CompletionsOnlyGrow(Feed(Chunked(length), whole), tail);
    BodyIsFinal(Feed(Chunked(length), whole), tail);
  }
}
