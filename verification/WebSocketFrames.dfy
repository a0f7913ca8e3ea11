/** Frame headers and masks of sections 5.2 and 5.3 of RFC 6455, as bytes and as the code assembles them. */
module WebSocketFrames {
  import opened Bytes
  import opened Options

  const TWO_16: int := 0x1_0000
  const TWO_32: int := 0x1_0000_0000
  const TWO_64: int := 0x1_0000_0000_0000_0000

  /** Network byte order, as the RFC writes lengths. */
  function Big16(x: int): seq<byte>
    requires 0 <= x < TWO_16
  {
    [x / 256, x % 256]
  }

  function Big32(x: int): seq<byte>
    requires 0 <= x < TWO_32
  {
    Big16(x / TWO_16) + Big16(x % TWO_16)
  }

  function Big64(x: int): seq<byte>
    requires 0 <= x < TWO_64
  {
    Big32(x / TWO_32) + Big32(x % TWO_32)
  }

  /** How a little-endian host lays a number out in memory. */
  function Little16(x: int): seq<byte>
    requires 0 <= x < TWO_16
  {
    [x % 256, x / 256]
  }

  function Little32(x: int): seq<byte>
    requires 0 <= x < TWO_32
  {
    Little16(x % TWO_16) + Little16(x / TWO_16)
  }

  function Little64(x: int): seq<byte>
    requires 0 <= x < TWO_64
  {
    Little32(x % TWO_32) + Little32(x / TWO_32)
  }

  /** `htons` and `htonl` on such a host; `ntohs` and `ntohl` are the same functions. */
  function Htons(x: int): (r: int)
    requires 0 <= x < TWO_16
    ensures 0 <= r < TWO_16
  {
    x % 256 * 256 + x / 256
  }

  function Htonl(x: int): (r: int)
    requires 0 <= x < TWO_32
    ensures 0 <= r < TWO_32
  {
    Htons(x % TWO_16) * TWO_16 + Htons(x / TWO_16)
  }

  /** The two swapped halves, changed over. */
  function Swap64(x: int): (r: int)
    requires 0 <= x < TWO_64
    ensures 0 <= r < TWO_64
  {
    Htonl(x % TWO_32) * TWO_32 + Htonl(x / TWO_32)
  }

  function FromLittle16(b: seq<byte>): (x: int)
    requires |b| == 2
    ensures 0 <= x < TWO_16
  {
    b[0] + 256 * (b[1] as int)
  }

  function FromLittle64(b: seq<byte>): (x: int)
    requires |b| == 8
    ensures 0 <= x < TWO_64
  {
    FromLittle16(b[0..2]) + TWO_16 * FromLittle16(b[2..4]) + TWO_32 * FromLittle16(b[4..6])
    + 0x1_0000_0000_0000 * FromLittle16(b[6..8])
  }

  lemma Swap16IsBig(x: int)
    requires 0 <= x < TWO_16
    ensures Little16(Htons(x)) == Big16(x) && Htons(Htons(x)) == x
  {
  }

  lemma Swap32IsBig(x: int)
    requires 0 <= x < TWO_32
    ensures Little32(Htonl(x)) == Big32(x) && Htonl(Htonl(x)) == x
  {
    hide Htons, Big16, Little16;
    Swap16IsBig(x % TWO_16);
    Swap16IsBig(x / TWO_16);
  }

  lemma Swap64IsBig(x: int)
    requires 0 <= x < TWO_64
    ensures Little64(Swap64(x)) == Big64(x) && Swap64(Swap64(x)) == x
  {
    hide Htonl, Big32, Little32;
    Swap32IsBig(x % TWO_32);
    Swap32IsBig(x / TWO_32);
  }

  lemma LittleRoundTrip(x: int)
    requires 0 <= x < TWO_64
    ensures |Little64(x)| == 8 && FromLittle64(Little64(x)) == x
  {
    var lo, hi := x % TWO_32, x / TWO_32;
    var b := Little64(x);
    assert b[0..2] == Little16(lo % TWO_16) && b[2..4] == Little16(lo / TWO_16);
    assert b[4..6] == Little16(hi % TWO_16) && b[6..8] == Little16(hi / TWO_16);
  }

  /** `build_header`: an unmasked final frame with the shortest length form. */
  method BuildHeader(opcode: int, size: int) returns (header: seq<byte>)
    requires 0 <= opcode < 16 && 0 <= size < TWO_64
    ensures header == Header(true, opcode, false, FormFor(size), size)
  {
    hide Htons, Swap64, Little64;
    var buf := [0x80 + opcode, 0];
    if size < 126 {
      return [buf[0], buf[1] + size];
    } else if size < 0x10000 {
      Swap16IsBig(size);
      return [buf[0], buf[1] + 126] + Little16(Htons(size));
    } else {
      Swap64IsBig(size);
      return [buf[0], buf[1] + 127] + Little64(Swap64(size));
    }
  }

  /** The three ways to write a length; the reader takes any that can hold it. */
  datatype Form = Short | Long16 | Long64

  predicate Holds(form: Form, size: int) {
    match form
    case Short => 0 <= size < 126
    case Long16 => 0 <= size < TWO_16
    case Long64 => 0 <= size < TWO_64
  }

  function FormFor(size: int): (f: Form)
    requires 0 <= size < TWO_64
    ensures Holds(f, size)
  {
    if size < 126 then Short else if size < TWO_16 then Long16 else Long64
  }

  function LengthBytes(form: Form, size: int): seq<byte>
    requires Holds(form, size)
  {
    match form
    case Short => []
    case Long16 => Big16(size)
    case Long64 => Big64(size)
  }

  function FirstBytes(fin: bool, opcode: int, masked: bool, form: Form, size: int): (r: seq<byte>)
    requires 0 <= opcode < 16 && Holds(form, size)
    ensures |r| == 2
  {
    [(if fin then 0x80 else 0) + opcode,
     (if masked then 0x80 else 0) + match form case Short => size case Long16 => 126 case Long64 => 127]
  }

  /** Section 5.2 of RFC 6455, up to the masking key. */
  function Header(fin: bool, opcode: int, masked: bool, form: Form, size: int): seq<byte>
    requires 0 <= opcode < 16 && Holds(form, size)
  {
    FirstBytes(fin, opcode, masked, form, size) + LengthBytes(form, size)
  }

  /** What the reader keeps of the first two bytes, and the fields it takes from it. */
  function MiniHeader(bytes: seq<byte>): (h: int)
    requires |bytes| == 2
    ensures 0 <= h < TWO_16
  {
    Htons(FromLittle16(bytes))
  }

  predicate Fin(h: int) {
    h / 0x8000 % 2 == 1
  }

  function Opcode(h: int): int {
    h / 0x100 % 16
  }

  predicate HasMask(h: int) {
    h / 0x80 % 2 == 1
  }

  function SmallLength(h: int): int {
    h % 0x80
  }

  lemma MiniHeaderIsRead(fin: bool, opcode: int, masked: bool, form: Form, size: int)
    requires 0 <= opcode < 16 && Holds(form, size)
    ensures var h := MiniHeader(FirstBytes(fin, opcode, masked, form, size));
      && Fin(h) == fin && Opcode(h) == opcode && HasMask(h) == masked
      && SmallLength(h) == match form case Short => size case Long16 => 126 case Long64 => 127
  {
    var b := FirstBytes(fin, opcode, masked, form, size);
    BigPair(b);
    HeaderFields(if fin then 1 else 0, opcode, if masked then 1 else 0, b[1] % 128, MiniHeader(b));
  }

  lemma BigPair(b: seq<byte>)
    requires |b| == 2
    ensures MiniHeader(b) == b[0] as int * 256 + b[1]
  {
  }

  lemma HeaderFields(fin: int, opcode: int, mask: int, length: int, h: int)
    requires 0 <= fin <= 1 && 0 <= mask <= 1 && 0 <= opcode < 16 && 0 <= length < 128
    requires h == fin * 0x8000 + opcode * 0x100 + mask * 0x80 + length
    ensures Fin(h) == (fin == 1) && Opcode(h) == opcode && HasMask(h) == (mask == 1) && SmallLength(h) == length
  {
    assert h / 0x8000 == fin;
    assert h / 0x100 == fin * 128 + opcode;
    assert h / 0x80 == (fin * 128 + opcode) * 2 + mask;
  }

  function Length16(bytes: seq<byte>): int
    requires |bytes| == 2
  {
    Htons(FromLittle16(bytes))
  }

  function Length64(bytes: seq<byte>): int
    requires |bytes| == 8
  {
    Swap64(FromLittle64(bytes))
  }

  /** The reader recovers every length that was written in 16 or 64 bits. */
  lemma LengthsAreRead(size: int)
    requires 0 <= size < TWO_64
    ensures size < TWO_16 ==> Length16(Big16(size)) == size
    ensures |Big64(size)| == 8 && Length64(Big64(size)) == size
  {
    hide Swap64, Little64, FromLittle64, Big64;
    Swap64IsBig(size);
    LittleRoundTrip(Swap64(size));
    if size < TWO_16 {
      Swap16IsBig(size);
    }
  }

  function Pow2(n: nat): nat {
    if n == 0 then 1 else 2 * Pow2(n - 1)
  }

  /** Exclusive or of the lowest `n` bits. */
  function XorBits(a: nat, b: nat, n: nat): (r: nat)
    ensures r < Pow2(n)
  {
    if n == 0 then 0 else (a + b) % 2 + 2 * XorBits(a / 2, b / 2, n - 1)
  }

  /** One byte of payload against one of the masking key. */
  function Xor(a: byte, b: byte): byte {
    ByteRange();
    XorBits(a, b, 8)
  }

  lemma ByteRange()
    ensures Pow2(8) == 256
  {
    assert Pow2(4) == 16;
  }

  lemma SameParity(a: nat, b: nat, r: nat)
    requires r % 2 == (a + b) % 2
    ensures (r + b) % 2 == a % 2
  {
  }

  lemma XorBitsIs(a: nat, b: nat, n: nat)
    requires n > 0
    ensures XorBits(a, b, n) == (a + b) % 2 + 2 * XorBits(a / 2, b / 2, n - 1)
  {
  }

  lemma LowBit(bit: nat, half: nat)
    requires bit < 2
    ensures (bit + 2 * half) / 2 == half && (bit + 2 * half) % 2 == bit
  {
  }

  lemma {:induction false} XorBitsTwice(a: nat, b: nat, n: nat)
    requires a < Pow2(n)
    ensures XorBits(XorBits(a, b, n), b, n) == a
  {
    if n > 0 {
      XorBitsTwice(a / 2, b / 2, n - 1);
      var r, half := XorBits(a, b, n), XorBits(a / 2, b / 2, n - 1);
      XorBitsIs(a, b, n);
      XorBitsIs(r, b, n);
      hide XorBits;
      LowBit((a + b) % 2, half);
      SameParity(a, b, r);
      LowBit(a % 2, a / 2);
    }
  }

  lemma XorTwice(a: byte, b: byte)
    ensures Xor(Xor(a, b), b) == a
  {
    ByteRange();
    XorBitsTwice(a, b, 8);
  }

  /** Section 5.3: byte `i` is combined with byte `i` modulo 4 of the key. */
  function Masked(payload: seq<byte>, key: seq<byte>): (r: seq<byte>)
    requires |key| == 4
    ensures |r| == |payload|
  {
    seq(|payload|, i requires 0 <= i < |payload| => Xor(payload[i], key[i % 4]))
  }

  lemma UnmaskRestores(payload: seq<byte>, key: seq<byte>)
    requires |key| == 4
    ensures Masked(Masked(payload, key), key) == payload
  {
    forall i | 0 <= i < |payload|
      ensures Masked(Masked(payload, key), key)[i] == payload[i]
    {
      XorTwice(payload[i], key[i % 4]);
    }
  }
}
