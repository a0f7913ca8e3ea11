/**
 The reader between the socket's bytes and the frames. The two header bytes come from one `async_read_some`, which
 may hand over the first alone; the second then stays in the socket.
 */
module WebSocketStream {
  import opened Bytes
  import opened Options
  import opened WebSocketFrames
  import opened WebSocketSession

  function AllFrameBytes(frames: seq<Frame>): seq<byte>
    requires AllGood(frames)
  {
    if frames == [] then [] else FrameBytes(frames[0]) + AllFrameBytes(frames[1..])
  }

  /** What the header variable holds after the read, and what the socket still holds. */
  function ReadHeader(input: seq<byte>, split: bool): (r: Option<(int, seq<byte>)>)
    ensures r.Some? ==> 0 <= r.value.0 < TWO_16 && |r.value.1| < |input|
  {
    if input == [] then None
    else if split || |input| == 1 then Some((MiniHeader([input[0], 0]), input[1..]))
    else Some((MiniHeader(input[..2]), input[2..]))
  }

  function LengthForm(h: int): Form {
    if SmallLength(h) == 127 then Long64 else if SmallLength(h) == 126 then Long16 else Short
  }

  /** The payload's size, in the form the header announces. */
  function ReadLength(h: int, input: seq<byte>): (r: Option<(int, seq<byte>)>)
    ensures r.Some? ==> r.value.0 >= 0 && Holds(LengthForm(h), r.value.0) && |r.value.1| <= |input|
  {
    match LengthForm(h)
    case Long64 => if |input| < 8 then None else Some((Length64(input[..8]), input[8..]))
    case Long16 => if |input| < 2 then None else Some((Length16(input[..2]), input[2..]))
    case Short => Some((SmallLength(h), input))
  }

  function ReadKey(h: int, input: seq<byte>): (r: Option<(Option<seq<byte>>, seq<byte>)>)
    ensures r.Some? ==> (r.value.0.Some? ==> |r.value.0.value| == 4) && |r.value.1| <= |input|
  {
    if !HasMask(h) then Some((None, input))
    else if |input| < 4 then None
    else Some((Some(input[..4]), input[4..]))
  }

  function ReadData(size: nat, input: seq<byte>): (r: Option<(seq<byte>, seq<byte>)>)
    ensures r.Some? ==> |r.value.0| == size && |r.value.1| <= |input|
  {
    if |input| < size then None else Some((input[..size], input[size..]))
  }

  function FrameOf(h: int, key: Option<seq<byte>>, data: seq<byte>): (f: Frame)
    requires key.Some? ==> |key.value| == 4
    ensures f.form == LengthForm(h) && |f.payload| == |data| && f.key == key && 0 <= f.opcode < 16
  {
    Frame(Fin(h), Opcode(h), key, LengthForm(h), if key.Some? then Masked(data, key.value) else data)
  }

  lemma FrameOfIsGood(h: int, key: Option<seq<byte>>, data: seq<byte>)
    requires (key.Some? ==> |key.value| == 4) && Holds(LengthForm(h), |data|)
    ensures Good(FrameOf(h, key, data))
  {
  }

  /** The next frame the reader takes from the input, and what is left; nothing while bytes are missing. */
  function ReadOne(input: seq<byte>, split: bool): (r: Option<(Frame, seq<byte>)>)
    ensures r.Some? ==> Good(r.value.0) && |r.value.1| < |input|
  {
    match ReadHeader(input, split)
    case None => None
    case Some((h, afterHeader)) =>
      match ReadLength(h, afterHeader)
      case None => None
      case Some((size, afterLength)) =>
        match ReadKey(h, afterLength)
        case None => None
        case Some((key, afterKey)) =>
          match ReadData(size, afterKey)
          case None => None
          case Some((data, rest)) => Some((FrameOf(h, key, data), rest))
  }

  /** Reads one frame after another while the connection is open; entry k says whether header k comes in two reads. */
  function Stream(s: Session, input: seq<byte>, splits: seq<bool>): (Session, seq<byte>)
    decreases |input|
  {
    if !Open(s.ending) then (s, input)
    else
      match ReadOne(input, splits != [] && splits[0])
      case None => (s, input)
      case Some((f, rest)) => Stream(Handled(s, f), rest, if splits == [] then [] else splits[1..])
  }

  lemma FrameParts(f: Frame, rest: seq<byte>)
    requires Good(f)
    ensures |KeyBytes(f)| == (if f.key.Some? then 4 else 0) && |SentPayload(f)| == |f.payload|
    ensures FrameBytes(f) + rest ==
            FirstBytes(f.fin, f.opcode, f.key.Some?, f.form, |f.payload|)
            + (LengthBytes(f.form, |f.payload|) + (KeyBytes(f) + (SentPayload(f) + rest)))
  {
    hide FirstBytes, LengthBytes, SentPayload;
    var a := FirstBytes(f.fin, f.opcode, f.key.Some?, f.form, |f.payload|);
    var b, c, d := LengthBytes(f.form, |f.payload|), KeyBytes(f), SentPayload(f);
    assert (a + b) + (c + d) + rest == a + (b + (c + (d + rest)));
  }

  lemma LengthParts(form: Form, size: int)
    requires Holds(form, size)
    ensures form == Short ==> LengthBytes(form, size) == [] && size < 126
    ensures form == Long16 ==> |LengthBytes(form, size)| == 2 && Length16(LengthBytes(form, size)) == size
    ensures form == Long64 ==> |LengthBytes(form, size)| == 8 && Length64(LengthBytes(form, size)) == size
  {
    hide Length16, Length64, Big64;
    LengthsAreRead(size);
  }

  lemma Cut(a: seq<byte>, b: seq<byte>)
    ensures (a + b)[..|a|] == a && (a + b)[|a|..] == b
  {
  }

  /** A header that comes in one read: the frame that was sent is the frame that is read. */
  lemma FrameIsRead(f: Frame, rest: seq<byte>)
    requires Good(f)
    ensures ReadOne(FrameBytes(f) + rest, false) == Some((f, rest))
  {
    hide FrameBytes, FirstBytes, LengthBytes, SentPayload, MiniHeader, Length16, Length64, Fin, Opcode, HasMask,
      SmallLength, FrameOf;
    var first := FirstBytes(f.fin, f.opcode, f.key.Some?, f.form, |f.payload|);
    var length, key, data := LengthBytes(f.form, |f.payload|), KeyBytes(f), SentPayload(f);
    var h := MiniHeader(first);
    FrameParts(f, rest);
    MiniHeaderIsRead(f.fin, f.opcode, f.key.Some?, f.form, |f.payload|);
    LengthParts(f.form, |f.payload|);
    Cut(first, length + (key + (data + rest)));
    Cut(length, key + (data + rest));
    assert f.form == Short ==> length + (key + (data + rest)) == key + (data + rest);
    Cut(key, data + rest);
    assert f.key == None ==> key + (data + rest) == data + rest;
    Cut(data, rest);
    assert LengthForm(h) == f.form;
    SentFrame(f, h);
  }

  lemma SentFrame(f: Frame, h: int)
    requires Good(f) && Fin(h) == f.fin && Opcode(h) == f.opcode && LengthForm(h) == f.form
    ensures FrameOf(h, f.key, SentPayload(f)) == f
  {
    hide Fin, Opcode, LengthForm, Masked;
    if f.key.Some? {
      UnmaskRestores(f.payload, f.key.value);
    }
  }

  /** A header whose first byte comes alone: an empty unmasked frame is read, and all but that byte is left. */
  lemma SplitIsRead(f: Frame, rest: seq<byte>)
    requires Good(f)
    ensures |FrameBytes(f)| >= 2
    ensures ReadOne(FrameBytes(f) + rest, true) ==
            Some((Frame(f.fin, f.opcode, None, Short, []), FrameBytes(f)[1..] + rest))
  {
    hide FrameBytes, LengthBytes, SentPayload, MiniHeader, Fin, Opcode, HasMask, SmallLength;
    FrameParts(f, []);
    assert FrameBytes(f) + [] == FrameBytes(f);
    MiniHeaderIsRead(f.fin, f.opcode, false, Short, 0);
    var input := FrameBytes(f) + rest;
    assert [input[0], 0] == FirstBytes(f.fin, f.opcode, false, Short, 0);
    assert input[1..] == FrameBytes(f)[1..] + rest;
    assert input[1..][..0] == [] && input[1..][0..] == input[1..];
  }

  /** Among the first n headers none comes in two reads. */
  predicate NoneSplit(splits: seq<bool>, n: nat) {
    forall i :: 0 <= i < n && i < |splits| ==> !splits[i]
  }

  lemma ClosedStays(s: Session, frames: seq<Frame>)
    requires AllGood(frames) && !Open(s.ending)
    ensures HandledAll(s, frames) == s
    decreases |frames|
  {
    hide Good;
    if frames != [] {
      ClosedStays(s, frames[1..]);
    }
  }

  function Later(splits: seq<bool>): seq<bool> {
    if splits == [] then [] else splits[1..]
  }

  lemma StreamStep(s: Session, f: Frame, rest: seq<byte>, splits: seq<bool>)
    requires Good(f) && Open(s.ending) && (splits == [] || !splits[0])
    ensures Stream(s, FrameBytes(f) + rest, splits) == Stream(Handled(s, f), rest, Later(splits))
  {
    hide ReadOne, FrameBytes, Handled, Good, Open;
    FrameIsRead(f, rest);
  }

  /** Without split headers every frame is handled, and nothing is left unless the connection closed. */
  lemma {:induction false} UnsplitIsHandled(s: Session, frames: seq<Frame>, splits: seq<bool>)
    requires AllGood(frames) && NoneSplit(splits, |frames|)
    ensures var r := Stream(s, AllFrameBytes(frames), splits);
      r.0 == HandledAll(s, frames) && (Open(r.0.ending) ==> r.1 == [])
    decreases |frames|
  {
    hide Handled, FrameBytes, Stream, Good, Open;
    if frames == [] {
      StreamOfNothing(s, splits);
    } else if Open(s.ending) {
      StreamStep(s, frames[0], AllFrameBytes(frames[1..]), splits);
      UnsplitIsHandled(Handled(s, frames[0]), frames[1..], Later(splits));
    } else {
      ClosedStays(s, frames);
      StreamOfNone(s, AllFrameBytes(frames), splits);
    }
  }

  lemma StreamOfNothing(s: Session, splits: seq<bool>)
    ensures Stream(s, [], splits) == (s, [])
  {
  }

  lemma StreamOfNone(s: Session, input: seq<byte>, splits: seq<bool>)
    requires !Open(s.ending)
    ensures Stream(s, input, splits) == (s, input)
  {
  }

  /** What was delivered stays delivered. */
  lemma DeliveredStays(s: Session, f: Frame)
    requires Good(f)
    ensures s.incoming.delivered <= Handled(s, f).incoming.delivered
  {
    hide Reply, Holds, Enqueued, Answered;
    if Open(s.ending) && f.opcode < 3 {
      DataStep(s, f);
      ArrivalIsHandled(s, f);
    }
  }

  lemma {:induction false} StreamDelivers(s: Session, input: seq<byte>, splits: seq<bool>)
    ensures s.incoming.delivered <= Stream(s, input, splits).0.incoming.delivered
    decreases |input|
  {
    hide ReadOne, Handled, Good, Open;
    if Open(s.ending) {
      match ReadOne(input, splits != [] && splits[0])
      case None =>
      case Some((f, rest)) =>
        DeliveredStays(s, f);
        StreamDelivers(Handled(s, f), rest, Later(splits));
    }
  }

  lemma {:induction false} AllDeliver(s: Session, frames: seq<Frame>)
    requires AllGood(frames)
    ensures s.incoming.delivered <= HandledAll(s, frames).incoming.delivered
    decreases |frames|
  {
    hide Handled, Good;
    if frames != [] {
      DeliveredStays(s, frames[0]);
      AllDeliver(Handled(s, frames[0]), frames[1..]);
    }
  }

  predicate FinalData(f: Frame) {
    f.opcode < 3 && f.fin && f.payload != []
  }

  /** The message that a final data frame completes, with or without its payload. */
  lemma FinalDelivers(s: Session, f: Frame)
    requires Good(f) && f.opcode < 3 && f.fin && Open(s.ending)
    ensures Handled(s, f).incoming.delivered ==
            s.incoming.delivered
            + [(s.incoming.message + f.payload, if f.opcode == 0 then s.incoming.isBinary else f.opcode == 2)]
  {
    hide Step, Handled, Good;
    DataStep(s, f);
    ArrivalIsHandled(s, f);
  }

  /** When the first split header is that of a final data frame with a payload, that payload is lost for good. */
  lemma {:induction false} SplitDataIsLost(s: Session, frames: seq<Frame>, splits: seq<bool>, k: nat)
    requires AllGood(frames) && k < |frames| && k < |splits| && splits[k] && NoneSplit(splits, k)
    requires FinalData(frames[k]) && Open(HandledAll(s, frames[..k]).ending)
    ensures Stream(s, AllFrameBytes(frames), splits).0 != HandledAll(s, frames)
    decreases k
  {
    hide Handled, FrameBytes, Good, Open, ReadOne, FinalData;
    var f, rest := frames[0], frames[1..];
    if k == 0 {
      FirstIsLost(s, frames, splits);
    } else {
      assert frames[..k][1..] == rest[..k - 1];
      StaysOpen(s, frames[..k]);
      StreamStep(s, f, AllFrameBytes(rest), splits);
      SplitDataIsLost(Handled(s, f), rest, Later(splits), k - 1);
    }
  }

  lemma StaysOpen(s: Session, frames: seq<Frame>)
    requires AllGood(frames) && Open(HandledAll(s, frames).ending)
    ensures Open(s.ending)
  {
    hide Open;
    if !Open(s.ending) {
      ClosedStays(s, frames);
    }
  }

  lemma FirstIsLost(s: Session, frames: seq<Frame>, splits: seq<bool>)
    requires AllGood(frames) && frames != [] && splits != [] && splits[0]
    requires FinalData(frames[0]) && Open(HandledAll(s, []).ending)
    ensures Stream(s, AllFrameBytes(frames), splits).0 != HandledAll(s, frames)
  {
    hide Handled, FrameBytes, Good, Open, ReadOne;
    var f, rest := frames[0], AllFrameBytes(frames[1..]);
    var empty := Frame(f.fin, f.opcode, None, Short, []);
    EmptyIsGood(f);
    SplitIsRead(f, rest);
    FinalDelivers(s, f);
    FinalDelivers(s, empty);
    StreamDelivers(Handled(s, empty), FrameBytes(f)[1..] + rest, Later(splits));
    AllDeliver(Handled(s, f), frames[1..]);
    var n := |s.incoming.delivered|;
    assert Stream(s, AllFrameBytes(frames), splits).0.incoming.delivered[n].0 == s.incoming.message + [];
    assert HandledAll(s, frames).incoming.delivered[n].0 == s.incoming.message + f.payload;
    assert |s.incoming.message + []| < |s.incoming.message + f.payload|;
  }

  lemma EmptyIsGood(f: Frame)
    requires Good(f)
    ensures Good(Frame(f.fin, f.opcode, None, Short, []))
  {
  }

  const PONG := Frame(true, 10, None, Short, [])
  const TEXT_X := Frame(true, 1, None, Short, [120])

  /** `k` pongs, one text frame, and pongs again. */
  function PongsAround(k: nat, n: nat): (frames: seq<Frame>)
    requires k < n
    ensures |frames| == n && AllGood(frames)
  {
    seq(n, i => if i == k then TEXT_X else PONG)
  }

  lemma {:induction false} PongsKeepOpen(s: Session, frames: seq<Frame>)
    requires AllGood(frames) && Open(s.ending) && forall i :: 0 <= i < |frames| ==> frames[i] == PONG
    ensures Open(HandledAll(s, frames).ending)
    decreases |frames|
  {
    hide Good;
    if frames != [] {
      PongsKeepOpen(Handled(s, frames[0]), frames[1..]);
    }
  }

  /** The frames the reader takes from the input, one after another, and what is left at the end. */
  function ReadAll(input: seq<byte>, splits: seq<bool>): (r: (seq<Frame>, seq<byte>))
    ensures AllGood(r.0)
    decreases |input|
  {
    match ReadOne(input, splits != [] && splits[0])
    case None => ([], input)
    case Some((f, rest)) =>
      var (frames, left) := ReadAll(rest, Later(splits));
      ([f] + frames, left)
  }

  lemma ReadAllStep(input: seq<byte>, splits: seq<bool>)
    ensures var one := ReadOne(input, splits != [] && splits[0]);
      if one == None then ReadAll(input, splits) == ([], input)
      else
        && ReadAll(input, splits).0 == [one.value.0] + ReadAll(one.value.1, Later(splits)).0
        && ReadAll(input, splits).1 == ReadAll(one.value.1, Later(splits)).1
  {
    hide ReadOne, Good;
  }

  /** What is read does not depend on the session, and the session handles it in order while it is open. */
  lemma {:induction false} StreamHandlesWhatIsRead(s: Session, input: seq<byte>, splits: seq<bool>)
    ensures Stream(s, input, splits).0 == HandledAll(s, ReadAll(input, splits).0)
    decreases |input|
  {
    hide ReadOne, Handled, Good, Open, ReadAll;
    ReadAllStep(input, splits);
    if !Open(s.ending) {
      ClosedStays(s, ReadAll(input, splits).0);
    } else {
      match ReadOne(input, splits != [] && splits[0])
      case None =>
      case Some((f, rest)) =>
        StreamHandlesWhatIsRead(Handled(s, f), rest, Later(splits));
        var frames := ReadAll(rest, Later(splits)).0;
        assert ([f] + frames)[0] == f && ([f] + frames)[1..] == frames;
    }
  }

  /** A frame is read from as many bytes as it has, or, with a split header, from one byte only. */
  lemma BytesOfOne(input: seq<byte>, split: bool)
    requires ReadOne(input, split).Some?
    ensures var (f, rest) := ReadOne(input, split).value;
      |input| - |rest| <= |FrameBytes(f)| && (split ==> |input| - |rest| < |FrameBytes(f)|)
  {
    hide MiniHeader, Length16, Length64, Fin, Opcode, HasMask, SmallLength, FrameOf, FrameBytes, Masked;
    var (h, afterHeader) := ReadHeader(input, split).value;
    var (size, afterLength) := ReadLength(h, afterHeader).value;
    var (key, afterKey) := ReadKey(h, afterLength).value;
    var (data, rest) := ReadData(size, afterKey).value;
    var f := FrameOf(h, key, data);
    FrameParts(f, []);
    LengthParts(f.form, |f.payload|);
    assert |FrameBytes(f) + []| == |FrameBytes(f)|;
  }

  lemma {:induction false} BytesOfAll(input: seq<byte>, splits: seq<bool>)
    ensures var (frames, left) := ReadAll(input, splits);
      && |input| - |left| <= |AllFrameBytes(frames)|
      && (!NoneSplit(splits, |frames|) ==> |input| - |left| < |AllFrameBytes(frames)|)
    decreases |input|
  {
    hide ReadOne, Good, FrameBytes, ReadAll;
    ReadAllStep(input, splits);
    var split := splits != [] && splits[0];
    if ReadOne(input, split).Some? {
      var (f, rest) := ReadOne(input, split).value;
      BytesOfOne(input, split);
      BytesOfAll(rest, Later(splits));
      var frames := ReadAll(rest, Later(splits)).0;
      assert ([f] + frames)[1..] == frames;
      NoneSplitLater(splits, |frames|);
    }
  }

  lemma NoneSplitLater(splits: seq<bool>, n: nat)
    ensures NoneSplit(splits, n + 1) <==> !(splits != [] && splits[0]) && NoneSplit(Later(splits), n)
  {
    if !(splits != [] && splits[0]) && NoneSplit(Later(splits), n) {
      forall i | 0 <= i < n + 1 && i < |splits|
        ensures !splits[i]
      {
        assert i > 0 ==> splits[i] == Later(splits)[i - 1];
      }
    }
    if NoneSplit(splits, n + 1) {
      forall i | 0 <= i < n && i < |Later(splits)|
        ensures !Later(splits)[i]
      {
        assert Later(splits)[i] == splits[i + 1];
      }
    }
  }

  /**
   For every sequence of frames: what is read is what was sent, with nothing left over, if and only if none of
   its headers comes in two reads.
   */
  lemma ReadsBackIff(frames: seq<Frame>, splits: seq<bool>)
    requires AllGood(frames)
    ensures ReadAll(AllFrameBytes(frames), splits) == (frames, []) <==> NoneSplit(splits, |frames|)
  {
    hide ReadAll, AllFrameBytes, NoneSplit, Good;
    BytesOfAll(AllFrameBytes(frames), splits);
    if NoneSplit(splits, |frames|) {
      UnsplitIsRead(frames, splits);
    }
  }

  lemma {:induction false} UnsplitIsRead(frames: seq<Frame>, splits: seq<bool>)
    requires AllGood(frames) && NoneSplit(splits, |frames|)
    ensures ReadAll(AllFrameBytes(frames), splits) == (frames, [])
    decreases |frames|
  {
    hide ReadOne, Good, FrameBytes, ReadAll;
    ReadAllStep(AllFrameBytes(frames), splits);
    if frames != [] {
      var rest := AllFrameBytes(frames[1..]);
      assert Good(frames[0]);
      FrameIsRead(frames[0], rest);
      NoneSplitLater(splits, |frames| - 1);
      UnsplitIsRead(frames[1..], Later(splits));
      assert frames == [frames[0]] + frames[1..];
    } else {
      NothingIsRead(splits != [] && splits[0]);
    }
  }

  lemma NothingIsRead(split: bool)
    ensures ReadOne([], split) == None
  {
  }

  /**
   From bytes to the handler: when no header of a message's frames is split, control frames among them included,
   the handler is called once, with the concatenated payload and the first frame's type.
   */
  lemma MessageBytesAreDelivered(s: Session, frames: seq<Frame>, splits: seq<bool>)
    requires AllGood(frames) && IsMessage(Arrivals(frames)) && NoneSplit(splits, |frames|)
    requires Open(s.ending) && s.incoming.message == []
    ensures var r, events := Stream(s, AllFrameBytes(frames), splits), Arrivals(frames);
      && Open(r.0.ending) && r.1 == [] && r.0.incoming.message == []
      && r.0.incoming.delivered == s.incoming.delivered + [(Payload(events), Binary(events))]
  {
    hide Stream, HandledAll, Run, AllFrameBytes, IsMessage, Payload, Binary, Good, Open;
    UnsplitIsHandled(s, frames, splits);
    FramesAreEvents(s, frames);
    MessageIsDelivered(s, Arrivals(frames));
  }

  /**
   Every sequence of n frames is handled as it was sent if and only if none of the n headers comes in two reads. A
   particular frame can survive a split, as `SplitPongIsRead` shows, so the sequences are quantified.
   */
  lemma AllAreHandledIff(n: nat, splits: seq<bool>)
    ensures NoneSplit(splits, n) <==>
            forall frames: seq<Frame> :: AllGood(frames) && |frames| == n ==>
              Stream(OPENED, AllFrameBytes(frames), splits).0 == HandledAll(OPENED, frames)
  {
    hide Stream, HandledAll, AllFrameBytes, AllGood, Good;
    if NoneSplit(splits, n) {
      forall frames: seq<Frame> | AllGood(frames) && |frames| == n
        ensures Stream(OPENED, AllFrameBytes(frames), splits).0 == HandledAll(OPENED, frames)
      {
        UnsplitIsHandled(OPENED, frames, splits);
      }
    } else {
      var k := FirstSplit(splits, n);
      var frames := PongsAround(k, n);
      TextIsLost(frames, splits, k, n);
    }
  }

  function FirstSplit(splits: seq<bool>, n: nat): (k: nat)
    requires !NoneSplit(splits, n)
    ensures k < n && k < |splits| && splits[k] && NoneSplit(splits, k)
  {
    if splits[0] then 0 else 1 + FirstSplit(splits[1..], n - 1)
  }

  lemma TextIsLost(frames: seq<Frame>, splits: seq<bool>, k: nat, n: nat)
    requires k < n && frames == PongsAround(k, n) && k < |splits| && splits[k] && NoneSplit(splits, k)
    ensures Stream(OPENED, AllFrameBytes(frames), splits).0 != HandledAll(OPENED, frames)
  {
    hide Stream, HandledAll, AllFrameBytes, Good;
    PongsKeepOpen(OPENED, frames[..k]);
    SplitDataIsLost(OPENED, frames, splits, k);
  }

  /** The split header of an unmasked empty pong is read well; what follows is what the next header reads. */
  lemma SplitPongIsRead(rest: seq<byte>)
    ensures Good(PONG) && FrameBytes(PONG) == [0x8A, 0]
    ensures ReadOne(FrameBytes(PONG) + rest, true) == Some((PONG, [0] + rest))
  {
    hide ReadOne;
    SplitIsRead(PONG, rest);
    assert FrameBytes(PONG)[1..] == [0];
  }

  const PING := Frame(true, 9, None, Short, [])

  lemma PingAndTextBytes()
    ensures Good(PING) && Good(TEXT_X) && AllGood([PING, TEXT_X])
    ensures FrameBytes(PING) == [0x89, 0] && FrameBytes(TEXT_X) == [0x81, 1, 0x78]
    ensures AllFrameBytes([PING, TEXT_X]) == [0x89, 0, 0x81, 1, 0x78]
  {
    assert [PING, TEXT_X][1..] == [TEXT_X] && [TEXT_X][1..] == [];
    assert AllFrameBytes([TEXT_X]) == [0x81, 1, 0x78];
  }

  /** A header of 00 81 announces one byte and a key, for which two bytes are missing. */
  lemma StrayHeader()
    ensures ReadOne([0, 0x81, 1, 0x78], false) == None
  {
    MiniHeaderIsRead(false, 0, true, Short, 1);
    assert [0, 0x81, 1, 0x78][..2] == FirstBytes(false, 0, true, Short, 1);
  }

  /**
   The bytes 89 00 81 01 78, a ping and a text message, with the first header split: its second byte is zero, so
   the ping is read well; the next header is read as 00 81, and the text message is never delivered.
   */
  lemma ZeroByteIsHeader()
    ensures AllGood([PING, TEXT_X]) && AllFrameBytes([PING, TEXT_X]) == [0x89, 0, 0x81, 1, 0x78]
    ensures var r := Stream(OPENED, [0x89, 0, 0x81, 1, 0x78], [true]);
      r.1 == [0, 0x81, 1, 0x78] && r.0.incoming.delivered == []
    ensures HandledAll(OPENED, [PING, TEXT_X]).incoming.delivered == [([0x78], false)]
  {
    hide ReadOne, FrameBytes, Reply;
    PingAndTextBytes();
    SplitIsRead(PING, [0x81, 1, 0x78]);
    StrayHeader();
    var next := Handled(OPENED, PING);
    assert [0x89, 0] + [0x81, 1, 0x78] == [0x89, 0, 0x81, 1, 0x78] && [0x89, 0][1..] + [0x81, 1, 0x78] == [0, 0x81, 1, 0x78];
    assert [true][1..] == [];
    assert Stream(next, [0, 0x81, 1, 0x78], []) == (next, [0, 0x81, 1, 0x78]);
    assert [PING, TEXT_X][1..] == [TEXT_X] && [TEXT_X][1..] == [];
    assert HandledAll(next, [TEXT_X]) == Handled(next, TEXT_X);
    FinalDelivers(next, TEXT_X);
    assert [] + [0x78] == [0x78];
  }
}
