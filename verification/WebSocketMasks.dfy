/** What masking does to the bits of a byte, and the examples of section 5.7 of RFC 6455. */
module WebSocketMasks {
  import opened Bytes
  import opened Options
  import opened WebSocketFrames
  import opened WebSocketSession
  import opened WebSocketStream

  /** Eight bits, the highest first. */
  datatype Bits = Bits(b7: bool, b6: bool, b5: bool, b4: bool, b3: bool, b2: bool, b1: bool, b0: bool)

  /** A number and one more bit below it. */
  function Join(h: nat, low: bool): (x: nat)
    ensures h + h <= x <= h + h + 1
  {
    if low then h + h + 1 else h + h
  }

  function High(b: Bits): (x: nat)
    ensures x < 16
  {
    Join(Join(Join(Join(0, b.b7), b.b6), b.b5), b.b4)
  }

  function Low(x: nat, b: Bits): (r: nat)
    ensures r <= 16 * x + 15
  {
    Join(Join(Join(Join(x, b.b3), b.b2), b.b1), b.b0)
  }

  function Value(b: Bits): byte {
    Low(High(b), b)
  }

  const T := true
  const F := false

  /** Exclusive or, bit by bit. */
  function Differ(a: Bits, b: Bits): Bits {
    Bits(a.b7 != b.b7, a.b6 != b.b6, a.b5 != b.b5, a.b4 != b.b4, a.b3 != b.b3, a.b2 != b.b2, a.b1 != b.b1, a.b0 != b.b0)
  }

  lemma Halve(x: nat) returns (low: bool, h: nat)
    ensures x == Join(h, low) && h + h <= x
  {
    low, h := x % 2 == 1, x / 2;
  }

  /** Every byte is its eight bits. */
  lemma BitsOf(x: byte) returns (b: Bits)
    ensures Value(b) == x
  {
    hide Join;
    var b0, x1 := Halve(x);
    var b1, x2 := Halve(x1);
    var b2, x3 := Halve(x2);
    var b3, x4 := Halve(x3);
    var b4, x5 := Halve(x4);
    var b5, x6 := Halve(x5);
    var b6, x7 := Halve(x6);
    var b7, x8 := Halve(x7);
    assert x8 == 0;
    b := Bits(b7, b6, b5, b4, b3, b2, b1, b0);
  }

  lemma Halves(h: nat, low: bool)
    ensures Join(h, low) / 2 == h && Join(h, low) == 2 * h + if low then 1 else 0
  {
  }

  lemma ParityOfJoined(x: nat, a: bool, y: nat, b: bool)
    ensures (Join(x, a) + Join(y, b)) % 2 == if a != b then 1 else 0
  {
  }

  lemma XorOfJoined(a: bool, b: bool, x: nat, y: nat, n: nat)
    ensures XorBits(Join(x, a), Join(y, b), n + 1) == Join(XorBits(x, y, n), a != b)
  {
    XorBitsIs(Join(x, a), Join(y, b), n + 1);
    hide XorBits, Join, Pow2;
    Halves(x, a);
    Halves(y, b);
    ParityOfJoined(x, a, y, b);
    Halves(XorBits(x, y, n), a != b);
  }

  lemma XorOfLow(x: nat, y: nat, n: nat, a: Bits, b: Bits)
    ensures XorBits(Low(x, a), Low(y, b), n + 4) == Low(XorBits(x, y, n), Differ(a, b))
  {
    hide XorBits, Join, Pow2;
    var x3, y3 := Join(x, a.b3), Join(y, b.b3);
    XorOfJoined(a.b3, b.b3, x, y, n);
    var x2, y2 := Join(x3, a.b2), Join(y3, b.b2);
    XorOfJoined(a.b2, b.b2, x3, y3, n + 1);
    var x1, y1 := Join(x2, a.b1), Join(y2, b.b1);
    XorOfJoined(a.b1, b.b1, x2, y2, n + 2);
    XorOfJoined(a.b0, b.b0, x1, y1, n + 3);
  }

  lemma XorOfHigh(a: Bits, b: Bits)
    ensures XorBits(High(a), High(b), 4) == High(Differ(a, b))
  {
    hide XorBits, Join, Pow2;
    assert XorBits(0, 0, 0) == 0 by { XorIs(0, 0); }
    XorOfLow(0, 0, 0, Bits(F, F, F, F, a.b7, a.b6, a.b5, a.b4), Bits(F, F, F, F, b.b7, b.b6, b.b5, b.b4));
  }

  lemma XorIs(a: byte, b: byte)
    ensures Xor(a, b) == XorBits(a, b, 8) && XorBits(0, 0, 0) == 0
  {
  }

  lemma XorOfBits(a: Bits, b: Bits)
    ensures Xor(Value(a), Value(b)) == Value(Differ(a, b))
  {
    hide XorBits, Pow2, Xor, High, Low, Differ;
    XorIs(Value(a), Value(b));
    XorOfHigh(a, b);
    XorOfLow(High(a), High(b), 4, a, b);
  }

  /** Each bit of a masked byte is the exclusive or of the two bits it comes from. */
  lemma MaskedBits(payload: seq<byte>, key: seq<byte>, i: nat, p: Bits, k: Bits)
    requires |key| == 4 && i < |payload| && payload[i] == Value(p) && key[i % 4] == Value(k)
    ensures Masked(payload, key)[i] == Value(Differ(p, k))
  {
    hide Value, Differ, Xor;
    XorOfBits(p, k);
  }

  lemma XorsOfHello()
    ensures Xor(0x48, 0x37) == 0x7f && Xor(0x65, 0xfa) == 0x9f && Xor(0x6c, 0x21) == 0x4d && Xor(0x6c, 0x3d) == 0x51
    ensures Xor(0x6f, 0x37) == 0x58
  {
    hide Xor;
    XorOfBits(Bits(F, T, F, F, T, F, F, F), Bits(F, F, T, T, F, T, T, T));
    XorOfBits(Bits(F, T, T, F, F, T, F, T), Bits(T, T, T, T, T, F, T, F));
    XorOfBits(Bits(F, T, T, F, T, T, F, F), Bits(F, F, T, F, F, F, F, T));
    XorOfBits(Bits(F, T, T, F, T, T, F, F), Bits(F, F, T, T, T, T, F, T));
    XorOfBits(Bits(F, T, T, F, T, T, T, T), Bits(F, F, T, T, F, T, T, T));
  }

  /** "Hello" under the key 37 fa 21 3d. */
  lemma HelloIsMasked()
    ensures Masked([0x48, 0x65, 0x6c, 0x6c, 0x6f], [0x37, 0xfa, 0x21, 0x3d]) == [0x7f, 0x9f, 0x4d, 0x51, 0x58]
  {
    hide Xor;
    XorsOfHello();
    var masked := Masked([0x48, 0x65, 0x6c, 0x6c, 0x6f], [0x37, 0xfa, 0x21, 0x3d]);
    assert masked[0] == 0x7f && masked[1] == 0x9f && masked[2] == 0x4d && masked[3] == 0x51 && masked[4] == 0x58;
  }

  /** The headers of the other examples: an unmasked text of 5 bytes, binary data of 256 bytes and of 64 KiB. */
  lemma ExampleHeaders()
    ensures Header(true, 1, false, Short, 5) == [0x81, 0x05] && Header(true, 1, true, Short, 5) == [0x81, 0x85]
    ensures Header(true, 2, false, FormFor(256), 256) == [0x82, 0x7e, 0x01, 0x00]
    ensures Header(true, 2, false, FormFor(65536), 65536) == [0x82, 0x7f, 0, 0, 0, 0, 0, 1, 0, 0]
  {
  }

  /** The masked example is read as the text "Hello". */
  lemma HelloIsRead(rest: seq<byte>)
    ensures
      ReadOne([0x81, 0x85, 0x37, 0xfa, 0x21, 0x3d, 0x7f, 0x9f, 0x4d, 0x51, 0x58] + rest, false) ==
      Some((Frame(true, 1, Some([0x37, 0xfa, 0x21, 0x3d]), Short, [0x48, 0x65, 0x6c, 0x6c, 0x6f]), rest))
  {
    hide ReadOne, Masked, Header;
    var f := Frame(true, 1, Some([0x37, 0xfa, 0x21, 0x3d]), Short, [0x48, 0x65, 0x6c, 0x6c, 0x6f]);
    HelloIsMasked();
    ExampleHeaders();
    FrameIsRead(f, rest);
    assert FrameBytes(f) == [0x81, 0x85] + ([0x37, 0xfa, 0x21, 0x3d] + [0x7f, 0x9f, 0x4d, 0x51, 0x58]);
    assert FrameBytes(f) == [0x81, 0x85, 0x37, 0xfa, 0x21, 0x3d, 0x7f, 0x9f, 0x4d, 0x51, 0x58];
  }

  /**
   What an open connection answers, byte by byte: a pong with the payload of a ping, a close frame with the text of the
   peer's close unless this side has closed, and nothing to any other frame.
   */
  lemma AnswersAre(s: Session, f: Frame)
    requires Good(f) && Open(s.ending) && |f.payload| < 126
    ensures Offered(Handled(s, f).outgoing) ==
            Offered(s.outgoing)
            + (if f.opcode == 9 then [0x8A, |f.payload|] + f.payload
               else if f.opcode == 8 && !s.ending.sentClose then [0x88, |f.payload|] + f.payload
               else [])
  {
    hide Enqueued, Offered, Reply, Extended, Answered, SaidClose;
    if f.opcode == 9 {
      ShortReply(10, f.payload);
      EnqueuedIsOffered(s.outgoing, Reply(10, f.payload));
    } else if f.opcode == 8 && !s.ending.sentClose {
      ShortReply(8, f.payload);
      EnqueuedIsOffered(s.outgoing, Reply(8, f.payload));
    } else {
      assert Offered(s.outgoing) + [] == Offered(s.outgoing);
    }
  }

  lemma ShortReply(opcode: int, text: seq<byte>)
    requires 0 <= opcode < 16 && |text| < 126
    ensures Reply(opcode, text) == [0x80 + opcode, |text|] + text
  {
    assert Header(true, opcode, false, Short, |text|) == [0x80 + opcode, |text|];
  }
}
