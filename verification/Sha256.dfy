/** Padding, blocks and the digest: sections 5.1.1, 5.2.1 and 6.2 of FIPS 180-4, on whole bytes. */
module Fips180Message {
  import opened Bytes
  import opened Fips180

  /** The lowest `n` bytes of a number, most significant first. */
  function BigEndianBytes(v: nat, n: nat): (r: seq<byte>)
    ensures |r| == n
  {
    if n == 0 then [] else BigEndianBytes(v / 256, n - 1) + [v % 256]
  }

  function Zeros(n: nat): (r: seq<byte>)
    ensures |r| == n
  {
    seq(n, _ => 0)
  }

  /** A one bit, as few zero bits as fill up a block but for its last 64 bits, and the length in bits. */
  function Padded(m: seq<byte>): seq<byte> {
    m + [128] + Zeros((55 - |m|) % 64) + BigEndianBytes(8 * |m|, 8)
  }

  /** The chaining value after all complete blocks. */
  function HashBlocks(v: Vars, bytes: seq<byte>): Vars
    decreases |bytes|
  {
    if |bytes| < 64 then v else HashBlocks(Compress(v, bytes[..64]), bytes[64..])
  }

  /** Byte `i` of a word, the most significant being the first. */
  function WordOctet(w: word, i: nat): octet
    requires i < 4
  {
    if i == 0 then ((w >> 24) & 0xff) as octet
    else if i == 1 then ((w >> 16) & 0xff) as octet
    else if i == 2 then ((w >> 8) & 0xff) as octet
    else (w & 0xff) as octet
  }

  function ByteOf(o: octet): byte {
    o as int
  }

  function WordBytes(w: word): (r: seq<byte>)
    ensures |r| == 4
  {
    [ByteOf(WordOctet(w, 0)), ByteOf(WordOctet(w, 1)), ByteOf(WordOctet(w, 2)), ByteOf(WordOctet(w, 3))]
  }

  function WordsBytes(words: seq<word>): (r: seq<byte>)
    ensures |r| == 4 * |words|
  {
    if words == [] then [] else WordsBytes(words[..|words| - 1]) + WordBytes(words[|words| - 1])
  }

  function Digest(v: Vars): (r: seq<byte>)
    ensures |r| == 32
  {
    WordsBytes([v.a, v.b, v.c, v.d, v.e, v.f, v.g, v.h])
  }

  const MAX_BYTES: int := 0x2000_0000_0000_0000

  function Sha256(m: seq<byte>): (r: seq<byte>)
    requires |m| < MAX_BYTES
    ensures |r| == 32
  {
    Digest(HashBlocks(InitialHash(), Padded(m)))
  }

  lemma {:induction false} HashConcat(v: Vars, a: seq<byte>, b: seq<byte>)
    requires |a| % 64 == 0
    ensures HashBlocks(v, a + b) == HashBlocks(HashBlocks(v, a), b)
    decreases |a|
  {
    hide Compress;
    if a == [] {
      assert a + b == b;
    } else {
      assert (a + b)[..64] == a[..64] && (a + b)[64..] == a[64..] + b;
      HashConcat(Compress(v, a[..64]), a[64..], b);
    }
  }

  lemma HashOne(v: Vars, block: seq<byte>)
    requires |block| == 64
    ensures HashBlocks(v, block) == Compress(v, block)
  {
    hide Compress;
    assert block[..64] == block && block[64..] == [];
  }
}

/** The streaming hasher: bytes arrive in pieces, are hashed block by block, and their number is kept in four limbs. */
module Sha256Stream {
  import opened Bytes
  import opened Fips180
  import opened Fips180Message
  import opened Sha256Block

  const TWO_64: int := 0x1_0000_0000_0000_0000

  /** A limb's contribution to the number. */
  function Weighted(i: nat, x: int): int {
    if i == 0 then x
    else if i == 1 then 0x1_0000 * x
    else if i == 2 then 0x1_0000_0000 * x
    else if i == 3 then 0x1_0000_0000_0000 * x
    else TWO_64 * x
  }

  /** The number four 16-bit limbs stand for, least significant first. */
  function LimbValue(d: seq<int>): int
    requires |d| == 4
  {
    Weighted(0, d[0]) + Weighted(1, d[1]) + Weighted(2, d[2]) + Weighted(3, d[3])
  }

  predicate Limbs(d: seq<int>) {
    |d| == 4 && forall i :: 0 <= i < 4 ==> 0 <= d[i] < 0x1_0000
  }

  lemma CarryStep(d: seq<int>, i: nat, carry: int, q: int, r: int)
    requires |d| == 4 && i < 4 && d[i] + carry == 0x1_0000 * q + r
    ensures LimbValue(d[i := r]) + Weighted(i + 1, q) == LimbValue(d) + Weighted(i, carry)
  {
    if i == 0 {
    } else if i == 1 {
    } else if i == 2 {
    } else {
    }
  }

  lemma LimbRange(d: seq<int>)
    requires Limbs(d)
    ensures 0 <= LimbValue(d) < TWO_64
  {
  }

  lemma WrappedSum(v: int, q: int, total: int)
    requires 0 <= v < TWO_64 && v + TWO_64 * q == total
    ensures v == total % TWO_64
  {
  }

  /** `add_to_data_length`: adds to the lowest limb and carries until a limb fits; the count is kept modulo 2^64. */
  method AddToDataLength(d0: seq<int>, n: nat) returns (d: seq<int>)
    requires Limbs(d0) && n < TWO_64 - 0x1_0000
    ensures Limbs(d) && LimbValue(d) == (LimbValue(d0) + n) % TWO_64
  {
    hide LimbValue, Weighted;
    d := d0[0 := d0[0] + n];
    LowestLimb(d0, n);
    var carry, i := 0, 0;
    while i < 4
      invariant 0 <= i <= 4 && |d| == 4 && 0 <= carry && 0 <= d[0]
      invariant forall k :: 0 <= k < 4 && (k != 0 || i > 0) ==> 0 <= d[k] < 0x1_0000
      invariant LimbValue(d) + Weighted(i, carry) == LimbValue(d0) + n
    {
      ghost var before := d;
      d := d[i := d[i] + carry];
      if d[i] >= 0x1_0000 {
        CarryStep(before, i, carry, d[i] / 0x1_0000, d[i] % 0x1_0000);
        carry := d[i] / 0x1_0000;
        d := d[i := d[i] % 0x1_0000];
        assert d == before[i := d[i]];
      } else {
        CarryStep(before, i, carry, 0, d[i]);
        NoCarry(i + 1);
        LimbRange(d);
        WrappedSum(LimbValue(d), 0, LimbValue(d0) + n);
        return;
      }
      i := i + 1;
    }
    LimbRange(d);
    LastCarry(carry);
    WrappedSum(LimbValue(d), carry, LimbValue(d0) + n);
  }

  lemma LowestLimb(d: seq<int>, n: int)
    requires |d| == 4
    ensures LimbValue(d[0 := d[0] + n]) == LimbValue(d) + n && Weighted(0, 0) == 0
  {
  }

  lemma NoCarry(i: nat)
    ensures Weighted(i, 0) == 0
  {
  }

  lemma LastCarry(q: int)
    ensures Weighted(4, q) == TWO_64 * q
  {
  }

  /** `write_data_bit_length`: eight times the count, as eight bytes, most significant first. */
  method WriteDataBitLength(d0: seq<int>) returns (bytes: seq<byte>)
    requires Limbs(d0)
    ensures bytes == BigEndianBytes(8 * LimbValue(d0) % TWO_64, 8)
  {
    hide LimbValue, Weighted, BigEndianBytes;
    var d, carry, i := d0, 0, 0;
    NoCarry(0);
    ghost var shifted := 0;
    while i < 4
      invariant 0 <= i <= 4 && |d| == 4 && 0 <= carry < 8
      invariant forall k :: 0 <= k < 4 ==> 0 <= d[k] < 0x1_0000 && (i <= k ==> d[k] == d0[k])
      invariant Below(d, i) + Weighted(i, carry) == 8 * Below(d0, i)
    {
      var before := d[i];
      ghost var was := d;
      // Shifting left by three leaves the low bits free for the carry.
      d := d[i := (before * 8 + carry) % 0x1_0000];
      BelowSame(was, d, i);
      ShiftStep(d0, d, i, carry, before / 0x2000);
      carry := before / 0x2000;
      i := i + 1;
    }
    Whole(d0);
    Whole(d);
    LimbRange(d);
    LastCarry(carry);
    WrappedSum(LimbValue(d), carry, 8 * LimbValue(d0));
    FieldOf(d);
    bytes := [];
    i := 3;
    while i >= 0
      invariant -1 <= i <= 3
      invariant bytes == LimbBytes(d, i + 1)
    {
      bytes := bytes + [d[i] / 256];
      bytes := bytes + [d[i] % 256];
      i := i - 1;
    }
  }

  /** What the limbs below `i` stand for. */
  function Below(d: seq<int>, i: nat): int
    requires |d| == 4 && i <= 4
  {
    if i == 0 then 0 else Below(d, i - 1) + Weighted(i - 1, d[i - 1])
  }

  lemma Whole(d: seq<int>)
    requires |d| == 4
    ensures Below(d, 4) == LimbValue(d)
  {
    hide Weighted;
    assert Below(d, 4) == Below(d, 3) + Weighted(3, d[3]);
    assert Below(d, 3) == Below(d, 2) + Weighted(2, d[2]);
    assert Below(d, 2) == Below(d, 1) + Weighted(1, d[1]);
    assert Below(d, 1) == Below(d, 0) + Weighted(0, d[0]);
  }

  lemma {:induction false} BelowSame(d: seq<int>, e: seq<int>, i: nat)
    requires |d| == 4 == |e| && i <= 4 && forall k :: 0 <= k < i ==> d[k] == e[k]
    ensures Below(d, i) == Below(e, i)
  {
    if i > 0 {
      BelowSame(d, e, i - 1);
    }
  }

  lemma ShiftStep(d0: seq<int>, d: seq<int>, i: nat, carry: int, q: int)
    requires |d0| == 4 == |d| && i < 4 && 0 <= d0[i] < 0x1_0000 && 0 <= carry < 8
    requires d[i] == (d0[i] * 8 + carry) % 0x1_0000 && q == d0[i] / 0x2000
    requires Below(d, i) + Weighted(i, carry) == 8 * Below(d0, i)
    ensures 0 <= q < 8
    ensures Below(d, i + 1) + Weighted(i + 1, q) == 8 * Below(d0, i + 1)
  {
    assert d0[i] * 8 + carry == 0x1_0000 * q + d[i];
    if i == 0 {
    } else if i == 1 {
    } else if i == 2 {
    } else {
    }
  }

  /** Limbs from the highest down to `i`, two bytes each. */
  function LimbBytes(d: seq<int>, i: nat): seq<byte>
    requires Limbs(d) && i <= 4
    decreases 4 - i
  {
    if i == 4 then [] else LimbBytes(d, i + 1) + [d[i] / 256] + [d[i] % 256]
  }

  lemma TwoBytes(u: nat, d: int, n: nat)
    requires 0 <= d < 0x1_0000
    ensures BigEndianBytes(0x1_0000 * u + d, n + 2) ==
            BigEndianBytes(u, n) + [d / 256] + [d % 256]
  {
    var v := 0x1_0000 * u + d;
    assert v % 256 == d % 256 && v / 256 == 256 * u + d / 256;
    assert (v / 256) % 256 == d / 256 && v / 256 / 256 == u;
    assert BigEndianBytes(v / 256, n + 1) == BigEndianBytes(u, n) + [d / 256];
  }

  lemma FieldOf(d: seq<int>)
    requires Limbs(d)
    ensures BigEndianBytes(LimbValue(d), 8) == LimbBytes(d, 0)
  {
    hide BigEndianBytes;
    var u3 := d[3];
    var u2 := 0x1_0000 * u3 + d[2];
    var u1 := 0x1_0000 * u2 + d[1];
    assert LimbValue(d) == 0x1_0000 * u1 + d[0];
    TwoBytes(0, d[3], 0);
    NoBytes();
    TwoBytes(u3, d[2], 2);
    TwoBytes(u2, d[1], 4);
    TwoBytes(u1, d[0], 6);
    assert LimbBytes(d, 2) == LimbBytes(d, 3) + [d[2] / 256] + [d[2] % 256];
    assert LimbBytes(d, 4) == [];
  }

  lemma NoBytes()
    ensures BigEndianBytes(0, 0) == []
  {
  }

  /** The bytes of a digest word, taken from the 64-bit word that holds it. */
  function WideOctet(w: word64, i: nat): octet
    requires i < 4
  {
    if i == 0 then ((w >> 24) & 0xff) as octet
    else if i == 1 then ((w >> 16) & 0xff) as octet
    else if i == 2 then ((w >> 8) & 0xff) as octet
    else (w & 0xff) as octet
  }

  lemma WideOctetAgrees(w: word, i: nat)
    requires i < 4
    ensures WideOctet(Ext(w), i) == WordOctet(w, i)
  {
  }

  class Hash256OneByOne {
    var buffer: seq<byte>
    var digits: seq<int>
    var h: Registers
    /** The complete blocks hashed so far. */
    ghost var hashed: seq<byte>

    /** Everything processed so far. */
    ghost function Fed(): seq<byte>
      reads this
    {
      hashed + buffer
    }

    /** Complete blocks are hashed, the rest is buffered, and the limbs hold the length modulo 2^64. */
    ghost predicate Valid()
      reads this
    {
      && |buffer| < 64 && |hashed| % 64 == 0
      && h == Widened(HashBlocks(InitialHash(), hashed))
      && Limbs(digits) && LimbValue(digits) == |Fed()| % TWO_64
    }

    constructor ()
      ensures Valid() && Fed() == []
    {
      hide InitialHash, Mask32, Ext, Compress;
      buffer, digits, hashed := [], [0, 0, 0, 0], [];
      h := Widened(InitialHash());
    }

    method Process(piece: seq<byte>)
      requires Valid() && |piece| < TWO_64 - 0x1_0000
      modifies this
      ensures Valid() && Fed() == old(Fed()) + piece
    {
      hide InitialHash, LimbValue, Limbs, Widened, Compress, HashBlocks;
      ghost var all := Fed() + piece;
      digits := AddToDataLength(digits, |piece|);
      CountGrows(|Fed()|, |piece|);
      var bytes := buffer + piece;
      assert hashed + bytes == all;
      var i := HashCompleteBlocks(bytes);
      buffer := bytes[i..];
    }

    /** Hashes 64 bytes at a time and tells where the first incomplete block starts. */
    method HashCompleteBlocks(bytes: seq<byte>) returns (i: nat)
      requires |hashed| % 64 == 0 && h == Widened(HashBlocks(InitialHash(), hashed))
      modifies this`h, this`hashed
      ensures i <= |bytes| < i + 64 && |hashed| % 64 == 0 && h == Widened(HashBlocks(InitialHash(), hashed))
      ensures hashed + bytes[i..] == old(hashed) + bytes
    {
      hide InitialHash, Widened, Compress, HashBlocks;
      i := 0;
      while i + 64 <= |bytes|
        invariant i <= |bytes| && |hashed| % 64 == 0
        invariant hashed + bytes[i..] == old(hashed) + bytes
        invariant h == Widened(HashBlocks(InitialHash(), hashed))
      {
        var block := bytes[i..i + 64];
        NextBlock(hashed, block);
        h := Hash256Block(h, block, HashBlocks(InitialHash(), hashed));
        BlockMoves(hashed, bytes, i);
        hashed := hashed + block;
        i := i + 64;
      }
    }

    /** The buffered bytes and the one bit, in a zeroed block. */
    method StartBlock() returns (temp: array<byte>)
      requires |buffer| < 64
      ensures fresh(temp) && temp.Length == 64 && temp[..] == buffer + [128] + Zeros(63 - |buffer|)
    {
      temp := new byte[64](_ => 0);
      forall k | 0 <= k < |buffer| {
        temp[k] := buffer[k];
      }
      temp[|buffer|] := 128;
    }

    /** The last one or two blocks, built in a 64-byte buffer that is used twice. */
    method Finish()
      requires Valid() && |Fed()| < MAX_BYTES
      modifies this`h
      ensures h == Widened(HashBlocks(InitialHash(), Padded(Fed())))
    {
      hide InitialHash, LimbValue, Limbs, Widened, Compress, HashBlocks, BigEndianBytes, Padded, Zeros;
      var remains := |buffer|;
      ghost var v := HashBlocks(InitialHash(), hashed);
      var temp := StartBlock();
      ghost var first := temp[..];
      if remains > 55 {
        h := Hash256Block(h, temp[..], v);
        TwoLastBlocks(hashed, buffer, v);
        v := Compress(v, first);
        forall k | 0 <= k < 60 {
          temp[k] := 0;
        }
        ZerosAre(temp[..56]);
      } else {
        ZerosJoin(55 - remains, 8);
        assert first == buffer + [128] + Zeros(55 - remains) + Zeros(8);
        OneLastBlock(hashed, buffer, v);
      }
      FinishBlock(temp, temp[..56], v);
    }

    /** The length goes into the last eight bytes, over whatever an earlier block left there. */
    method FinishBlock(temp: array<byte>, ghost front: seq<byte>, ghost v: Vars)
      requires temp.Length == 64 && front == temp[..56] && h == Widened(v)
      requires Limbs(digits) && LimbValue(digits) == |Fed()| % TWO_64 && |Fed()| < MAX_BYTES
      modifies this`h, temp
      ensures h == Widened(Compress(v, front + BigEndianBytes(8 * |Fed()|, 8)))
    {
      hide LimbValue, Limbs, Widened, Compress, BigEndianBytes;
      var bitLength := WriteDataBitLength(digits);
      forall k | 56 <= k < 64 {
        temp[k] := bitLength[k - 56];
      }
      assert temp[..] == front + bitLength;
      h := Hash256Block(h, temp[..], v);
    }

    /** The first `n` bytes of the digest, all of it when more are asked for. */
    method GetHashBytes(n: nat, ghost v: Vars) returns (out: seq<byte>)
      requires h == Widened(v)
      ensures out == Digest(v)[..if n < 32 then n else 32]
    {
      hide Ext, WordBytes, WordsBytes;
      ghost var words := [v.a, v.b, v.c, v.d, v.e, v.f, v.g, v.h];
      var held := [h.a, h.b, h.c, h.d, h.e, h.f, h.g, h.h];
      out := [];
      NoWords();
      for k := 0 to 8
        invariant out == Front(WordsBytes(words[..k]), n)
      {
        OneMoreWord(words, k);
        out := AppendWord(out, held[k], n, words[k], WordsBytes(words[..k]));
      }
      assert words[..8] == words;
    }

    /** Four more bytes of the digest, as far as there is room for them. */
    method AppendWord(out0: seq<byte>, w: word64, n: nat, ghost v: word, ghost all: seq<byte>)
      returns (out: seq<byte>)
      requires w == Ext(v) && out0 == Front(all, n)
      ensures out == Front(all + WordBytes(v), n)
    {
      hide Ext, WideOctet, WordOctet, ByteOf;
      out := out0;
      for i := 0 to 4
        invariant out == Front(all + WordBytes(v)[..i], n)
      {
        if |out| < n {
          WideOctetAgrees(v, i);
          out := out + [ByteOf(WideOctet(w, i))];
        }
        assert WordBytes(v)[..i + 1] == WordBytes(v)[..i] + [WordBytes(v)[i]];
      }
      assert WordBytes(v)[..4] == WordBytes(v);
    }
  }

  function Front(s: seq<byte>, n: nat): seq<byte> {
    if n < |s| then s[..n] else s
  }

  lemma NoWords()
    ensures WordsBytes([]) == []
  {
  }

  lemma OneMoreWord(words: seq<word>, k: nat)
    requires k < |words|
    ensures WordsBytes(words[..k + 1]) == WordsBytes(words[..k]) + WordBytes(words[k])
  {
    hide WordBytes;
    assert words[..k + 1][..k] == words[..k];
  }

  lemma Regroup<T>(a: seq<T>, b: seq<T>, c: seq<T>, d: seq<T>, e: seq<T>)
    ensures a + b + c + d + e == a + (b + c + d + e)
  {
  }

  lemma RegroupMore<T>(a: seq<T>, b: seq<T>, c: seq<T>, d: seq<T>, e: seq<T>, f: seq<T>)
    ensures a + b + c + (d + e) + f == a + ((b + c + d) + (e + f))
  {
  }

  lemma CountGrows(a: nat, n: nat)
    ensures (a % TWO_64 + n) % TWO_64 == (a + n) % TWO_64
  {
    var q := a / TWO_64;
    assert a + n == a % TWO_64 + n + TWO_64 * q;
  }

  lemma NextBlock(done: seq<byte>, block: seq<byte>)
    requires |done| % 64 == 0 && |block| == 64
    ensures HashBlocks(InitialHash(), done + block) == Compress(HashBlocks(InitialHash(), done), block)
  {
    hide InitialHash, Compress, HashBlocks;
    HashConcat(InitialHash(), done, block);
    HashOne(HashBlocks(InitialHash(), done), block);
  }

  lemma PaddedAs(m: seq<byte>, k: nat)
    requires k < 64 && (|m| + k) % 64 == 55
    ensures Padded(m) == m + [128] + Zeros(k) + BigEndianBytes(8 * |m|, 8)
  {
    hide BigEndianBytes;
    assert (55 - |m|) % 64 == k;
  }

  lemma OneLastBlock(front: seq<byte>, buffer: seq<byte>, v: Vars)
    requires |front| % 64 == 0 && |buffer| <= 55 && v == HashBlocks(InitialHash(), front)
    ensures HashBlocks(InitialHash(), Padded(front + buffer)) ==
            Compress(v, buffer + [128] + Zeros(55 - |buffer|) + BigEndianBytes(8 * |front + buffer|, 8))
  {
    hide InitialHash, Compress, HashBlocks, BigEndianBytes, Zeros, Padded;
    var pad, field := Zeros(55 - |buffer|), BigEndianBytes(8 * |front + buffer|, 8);
    PaddedAs(front + buffer, 55 - |buffer|);
    Regroup(front, buffer, [128], pad, field);
    NextBlock(front, buffer + [128] + pad + field);
  }

  lemma TwoLastBlocks(front: seq<byte>, buffer: seq<byte>, v: Vars)
    requires |front| % 64 == 0 && 55 < |buffer| < 64 && v == HashBlocks(InitialHash(), front)
    ensures HashBlocks(InitialHash(), Padded(front + buffer)) ==
            Compress(Compress(v, buffer + [128] + Zeros(63 - |buffer|)),
                     Zeros(56) + BigEndianBytes(8 * |front + buffer|, 8))
  {
    hide InitialHash, Compress, HashBlocks, BigEndianBytes, Zeros, Padded;
    var pad, field := Zeros(63 - |buffer|), BigEndianBytes(8 * |front + buffer|, 8);
    PaddedAs(front + buffer, 119 - |buffer|);
    ZerosJoin(63 - |buffer|, 56);
    var first, second := buffer + [128] + pad, Zeros(56) + field;
    RegroupMore(front, buffer, [128], pad, Zeros(56), field);
    assert front + (first + second) == front + first + second;
    NextBlock(front, first);
    NextBlock(front + first, second);
  }

  lemma ZerosAre(s: seq<byte>)
    requires forall k :: 0 <= k < |s| ==> s[k] == 0
    ensures s == Zeros(|s|)
  {
  }

  lemma ZerosJoin(a: nat, b: nat)
    ensures Zeros(a) + Zeros(b) == Zeros(a + b)
  {
  }

  function AllBytes(pieces: seq<seq<byte>>): seq<byte> {
    if pieces == [] then [] else AllBytes(pieces[..|pieces| - 1]) + pieces[|pieces| - 1]
  }

  /** The random-access form: the whole input in one piece. */
  method Hash256(input: seq<byte>, n: nat) returns (out: seq<byte>)
    requires |input| < MAX_BYTES
    ensures out == Front(Sha256(input), n)
  {
    out := Hash256Pieces([input], n);
    assert [input][..0] == [];
    assert AllBytes([]) == [];
    assert AllBytes([input]) == [] + input == input;
  }

  /** However the input is cut into pieces, empty ones included, the digest is that of the whole. */
  method Hash256Pieces(pieces: seq<seq<byte>>, n: nat) returns (out: seq<byte>)
    requires |AllBytes(pieces)| < MAX_BYTES
    ensures out == Front(Sha256(AllBytes(pieces)), n)
  {
    hide InitialHash, Widened, Compress, HashBlocks, Padded, Digest;
    var hasher := new Hash256OneByOne();
    for k := 0 to |pieces|
      invariant fresh(hasher) && hasher.Valid() && hasher.Fed() == AllBytes(pieces[..k])
    {
      assert pieces[..k + 1][..k] == pieces[..k];
      PrefixIsShorter(pieces, k + 1);
      hasher.Process(pieces[k]);
    }
    assert pieces[..|pieces|] == pieces;
    hasher.Finish();
    out := hasher.GetHashBytes(n, HashBlocks(InitialHash(), Padded(AllBytes(pieces))));
  }

  lemma {:induction false} PrefixIsShorter(pieces: seq<seq<byte>>, k: nat)
    requires k <= |pieces|
    ensures |AllBytes(pieces[..k])| <= |AllBytes(pieces)|
    decreases |pieces|
  {
    if k < |pieces| {
      assert pieces[..|pieces| - 1][..k] == pieces[..k];
      PrefixIsShorter(pieces[..|pieces| - 1], k);
    } else {
      assert pieces[..k] == pieces;
    }
  }

  lemma BlockMoves(hashed: seq<byte>, bytes: seq<byte>, i: nat)
    requires i + 64 <= |bytes|
    ensures hashed + bytes[i..] == hashed + bytes[i..i + 64] + bytes[i + 64..]
  {
    assert bytes[i..] == bytes[i..i + 64] + bytes[i + 64..];
  }

  /** As many bytes as the buffer holds, or as there are. */
  method FillBuffer(buffer: array<byte>, input: seq<byte>, start: nat) returns (size: nat, first: nat)
    requires start < |input| && buffer.Length > 0
    modifies buffer
    ensures 0 < size <= buffer.Length && first == start + size <= |input|
    ensures buffer[..size] == input[start..first]
  {
    first, size := start, buffer.Length;
    var i := 0;
    while i != buffer.Length
      invariant 0 <= i <= buffer.Length && first == start + i <= |input|
      invariant buffer[..i] == input[start..first]
      decreases buffer.Length - i
    {
      if first == |input| {
        size := i;
        break;
      }
      buffer[i] := input[first];
      i, first := i + 1, first + 1;
    }
  }

  /** The input-iterator form: the same digest through one reused buffer of any size. */
  method Hash256Buffered(input: seq<byte>, bufferSize: nat, n: nat) returns (out: seq<byte>)
    requires |input| < MAX_BYTES && 0 < bufferSize
    ensures out == Front(Sha256(input), n)
  {
    hide InitialHash, Widened, Compress, HashBlocks, Padded, Digest;
    var buffer := new byte[bufferSize](_ => 0);
    var hasher := new Hash256OneByOne();
    var first := 0;
    while first != |input|
      invariant first <= |input|
      invariant fresh(hasher) && hasher.Valid() && hasher.Fed() == input[..first]
      decreases |input| - first
    {
      ghost var start := first;
      var size;
      size, first := FillBuffer(buffer, input, first);
      hasher.Process(buffer[..size]);
      assert input[..first] == input[..start] + input[start..first];
    }
    assert input[..first] == input;
    hasher.Finish();
    out := hasher.GetHashBytes(n, HashBlocks(InitialHash(), Padded(input)));
  }
}
