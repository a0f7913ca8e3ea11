/** SHA-256 as FIPS 180-4 defines it, on 32-bit words. */
module Fips180 {
  import opened Bytes

  type octet = bv8
  type word = bv32

  /** Section 4.2.2, in rows of eight. */
  const K0: seq<word> := [
    0x428a2f98, 0x71374491, 0xb5c0fbcf, 0xe9b5dba5, 0x3956c25b, 0x59f111f1, 0x923f82a4, 0xab1c5ed5]
  const K1: seq<word> := [
    0xd807aa98, 0x12835b01, 0x243185be, 0x550c7dc3, 0x72be5d74, 0x80deb1fe, 0x9bdc06a7, 0xc19bf174]
  const K2: seq<word> := [
    0xe49b69c1, 0xefbe4786, 0x0fc19dc6, 0x240ca1cc, 0x2de92c6f, 0x4a7484aa, 0x5cb0a9dc, 0x76f988da]
  const K3: seq<word> := [
    0x983e5152, 0xa831c66d, 0xb00327c8, 0xbf597fc7, 0xc6e00bf3, 0xd5a79147, 0x06ca6351, 0x14292967]
  const K4: seq<word> := [
    0x27b70a85, 0x2e1b2138, 0x4d2c6dfc, 0x53380d13, 0x650a7354, 0x766a0abb, 0x81c2c92e, 0x92722c85]
  const K5: seq<word> := [
    0xa2bfe8a1, 0xa81a664b, 0xc24b8b70, 0xc76c51a3, 0xd192e819, 0xd6990624, 0xf40e3585, 0x106aa070]
  const K6: seq<word> := [
    0x19a4c116, 0x1e376c08, 0x2748774c, 0x34b0bcb5, 0x391c0cb3, 0x4ed8aa4a, 0x5b9cca4f, 0x682e6ff3]
  const K7: seq<word> := [
    0x748f82ee, 0x78a5636f, 0x84c87814, 0x8cc70208, 0x90befffa, 0xa4506ceb, 0xbef9a3f7, 0xc67178f2]

  const K: seq<word> := K0 + K1 + K2 + K3 + K4 + K5 + K6 + K7

  /** The working variables, and also a chaining value. */
  datatype Vars = Vars(a: word, b: word, c: word, d: word, e: word, f: word, g: word, h: word)

  /** Section 5.3.3. */
  function InitialHash(): Vars {
    Vars(0x6a09e667, 0xbb67ae85, 0x3c6ef372, 0xa54ff53a, 0x510e527f, 0x9b05688c, 0x1f83d9ab, 0x5be0cd19)
  }

  /** Addition modulo 2^32. */
  function Plus(x: word, y: word): word {
    x + y
  }

  /** Section 4.1.2. */
  function Ch(x: word, y: word, z: word): word {
    (x & y) ^ (!x & z)
  }

  function Maj(x: word, y: word, z: word): word {
    (x & y) ^ (x & z) ^ (y & z)
  }

  function BigSigma0(x: word): word {
    x.RotateRight(2) ^ x.RotateRight(13) ^ x.RotateRight(22)
  }

  function BigSigma1(x: word): word {
    x.RotateRight(6) ^ x.RotateRight(11) ^ x.RotateRight(25)
  }

  function SmallSigma0(x: word): word {
    x.RotateRight(7) ^ x.RotateRight(18) ^ (x >> 3)
  }

  function SmallSigma1(x: word): word {
    x.RotateRight(17) ^ x.RotateRight(19) ^ (x >> 10)
  }

  /** Four bytes as a big-endian word. */
  function BigEndian(p: octet, q: octet, r: octet, s: octet): word {
    ((p as word) << 24) | ((q as word) << 16) | ((r as word) << 8) | (s as word)
  }

  function Octet(b: byte): octet {
    b as octet
  }

  /** A block of 64 bytes as sixteen big-endian words. */
  function BlockWord(block: seq<byte>, t: nat): word
    requires |block| == 64 && t < 16
  {
    BigEndian(Octet(block[4 * t]), Octet(block[4 * t + 1]), Octet(block[4 * t + 2]), Octet(block[4 * t + 3]))
  }

  function Expand(w2: word, w7: word, w15: word, w16: word): word {
    Plus(Plus(Plus(SmallSigma1(w2), w7), SmallSigma0(w15)), w16)
  }

  /** The message schedule of section 6.2.2. */
  function Schedule(block: seq<byte>, t: nat): word
    requires |block| == 64 && t < 64
  {
    if t < 16 then BlockWord(block, t)
    else
      Expand(Schedule(block, t - 2), Schedule(block, t - 7), Schedule(block, t - 15), Schedule(block, t - 16))
  }

  function T1(v: Vars, k: word, w: word): word {
    Plus(Plus(Plus(Plus(v.h, BigSigma1(v.e)), Ch(v.e, v.f, v.g)), k), w)
  }

  function T2(v: Vars): word {
    Plus(BigSigma0(v.a), Maj(v.a, v.b, v.c))
  }

  function Round(v: Vars, k: word, w: word): Vars {
    Vars(Plus(T1(v, k, w), T2(v)), v.a, v.b, v.c, Plus(v.d, T1(v, k, w)), v.e, v.f, v.g)
  }

  function Rounds(v: Vars, block: seq<byte>, t: nat): Vars
    requires |block| == 64 && t <= 64
  {
    if t == 0 then v else Round(Rounds(v, block, t - 1), K[t - 1], Schedule(block, t - 1))
  }

  function Compress(v: Vars, block: seq<byte>): Vars
    requires |block| == 64
  {
    var r := Rounds(v, block, 64);
    Vars(Plus(v.a, r.a), Plus(v.b, r.b), Plus(v.c, r.c), Plus(v.d, r.d),
         Plus(v.e, r.e), Plus(v.f, r.f), Plus(v.g, r.g), Plus(v.h, r.h))
  }
}

/** The block function in 64-bit words, masked only where the code masks. */
module Sha256Block {
  import opened Bytes
  import opened Fips180

  type word64 = bv64

  function Mask32(x: word64): word64 {
    x & 0xffff_ffff
  }

  /** Addition modulo 2^64. */
  function Add(x: word64, y: word64): word64 {
    x + y
  }

  function ChWide(x: word64, y: word64, z: word64): word64 {
    (x & y) ^ (!x & z)
  }

  function MajWide(x: word64, y: word64, z: word64): word64 {
    (x & y) ^ (x & z) ^ (y & z)
  }

  /** `rotr` is a pair of shifts, joined and masked. */
  function Bsig0(x: word64): word64 {
    (((x >> 2) | (x << 30)) & 0xffff_ffff) ^ (((x >> 13) | (x << 19)) & 0xffff_ffff)
    ^ (((x >> 22) | (x << 10)) & 0xffff_ffff)
  }

  function Bsig1(x: word64): word64 {
    (((x >> 6) | (x << 26)) & 0xffff_ffff) ^ (((x >> 11) | (x << 21)) & 0xffff_ffff)
    ^ (((x >> 25) | (x << 7)) & 0xffff_ffff)
  }

  function Ssig0(x: word64): word64 {
    (((x >> 7) | (x << 25)) & 0xffff_ffff) ^ (((x >> 18) | (x << 14)) & 0xffff_ffff) ^ (x >> 3)
  }

  function Ssig1(x: word64): word64 {
    (((x >> 17) | (x << 15)) & 0xffff_ffff) ^ (((x >> 19) | (x << 13)) & 0xffff_ffff) ^ (x >> 10)
  }

  function FourBytes(p: octet, q: octet, r: octet, s: octet): word64 {
    ((p as word64) << 24) | ((q as word64) << 16) | ((r as word64) << 8) | (s as word64)
  }

  /** A 32-bit word in a 64-bit one. */
  function Ext(x: word): word64 {
    x as word64
  }

  // The lemmas named `...Bits` are facts about single bit-vector terms; the others lift them to the functions.

  lemma FourBytesAgree(p: octet, q: octet, r: octet, s: octet)
    ensures FourBytes(p, q, r, s) == Ext(BigEndian(p, q, r, s))
  {
    FourBytesBits(p, q, r, s, FourBytes(p, q, r, s), BigEndian(p, q, r, s));
  }

  lemma FourBytesBits(p: octet, q: octet, r: octet, s: octet, x: word64, y: word)
    requires x == ((p as word64) << 24) | ((q as word64) << 16) | ((r as word64) << 8) | (s as word64)
    requires y == ((p as word) << 24) | ((q as word) << 16) | ((r as word) << 8) | (s as word)
    ensures x == y as word64
  {
  }

  lemma ChBits(x: word, y: word, z: word)
    ensures (x as word64 & y as word64) ^ (!(x as word64) & z as word64) == Ch(x, y, z) as word64
  {
  }

  lemma ChOfWords(x: word, y: word, z: word)
    ensures ChWide(x as word64, y as word64, z as word64) == Ch(x, y, z) as word64
  {
    hide Ch;
    ChBits(x, y, z);
  }

  lemma ChAgrees(x: word, y: word, z: word)
    ensures ChWide(Ext(x), Ext(y), Ext(z)) == Ext(Ch(x, y, z))
  {
    hide ChWide, Ch;
    ChOfWords(x, y, z);
  }

  lemma AndWide(x: word, y: word)
    ensures x as word64 & y as word64 == (x & y) as word64
  {
  }

  lemma XorWide(x: word, y: word)
    ensures x as word64 ^ y as word64 == (x ^ y) as word64
  {
  }

  lemma MajOfWords(x: word, y: word, z: word)
    ensures MajWide(x as word64, y as word64, z as word64) == Maj(x, y, z) as word64
  {
    AndWide(x, y);
    AndWide(x, z);
    AndWide(y, z);
    XorWide(x & y, x & z);
    XorWide((x & y) ^ (x & z), y & z);
  }

  lemma MajAgrees(x: word, y: word, z: word)
    ensures MajWide(Ext(x), Ext(y), Ext(z)) == Ext(Maj(x, y, z))
  {
    hide MajWide, Maj;
    MajOfWords(x, y, z);
  }

  lemma Bsig0Bits(x: word, p: word64, q: word)
    requires p == (((x as word64 >> 2) | (x as word64 << 30)) & 0xffff_ffff) ^ (((x as word64 >> 13) | (x as word64 << 19)) & 0xffff_ffff) ^ (((x as word64 >> 22) | (x as word64 << 10)) & 0xffff_ffff)
    requires q == x.RotateRight(2) ^ x.RotateRight(13) ^ x.RotateRight(22)
    ensures p == q as word64
  {
  }

  lemma Bsig0OfWord(x: word)
    ensures Bsig0(x as word64) == BigSigma0(x) as word64
  {
    Bsig0Bits(x, Bsig0(x as word64), BigSigma0(x));
  }

  lemma Bsig0Agrees(x: word)
    ensures Bsig0(Ext(x)) == Ext(BigSigma0(x))
  {
    hide Bsig0, BigSigma0;
    Bsig0OfWord(x);
  }

  lemma Bsig1Bits(x: word, p: word64, q: word)
    requires p == (((x as word64 >> 6) | (x as word64 << 26)) & 0xffff_ffff) ^ (((x as word64 >> 11) | (x as word64 << 21)) & 0xffff_ffff) ^ (((x as word64 >> 25) | (x as word64 << 7)) & 0xffff_ffff)
    requires q == x.RotateRight(6) ^ x.RotateRight(11) ^ x.RotateRight(25)
    ensures p == q as word64
  {
  }

  lemma Bsig1OfWord(x: word)
    ensures Bsig1(x as word64) == BigSigma1(x) as word64
  {
    Bsig1Bits(x, Bsig1(x as word64), BigSigma1(x));
  }

  lemma Bsig1Agrees(x: word)
    ensures Bsig1(Ext(x)) == Ext(BigSigma1(x))
  {
    hide Bsig1, BigSigma1;
    Bsig1OfWord(x);
  }

  lemma Ssig0Bits(x: word, p: word64, q: word)
    requires p == (((x as word64 >> 7) | (x as word64 << 25)) & 0xffff_ffff) ^ (((x as word64 >> 18) | (x as word64 << 14)) & 0xffff_ffff) ^ (x as word64 >> 3)
    requires q == x.RotateRight(7) ^ x.RotateRight(18) ^ (x >> 3)
    ensures p == q as word64
  {
  }

  lemma Ssig0OfWord(x: word)
    ensures Ssig0(x as word64) == SmallSigma0(x) as word64
  {
    Ssig0Bits(x, Ssig0(x as word64), SmallSigma0(x));
  }

  lemma Ssig0Agrees(x: word)
    ensures Ssig0(Ext(x)) == Ext(SmallSigma0(x))
  {
    hide Ssig0, SmallSigma0;
    Ssig0OfWord(x);
  }

  lemma Ssig1Bits(x: word, p: word64, q: word)
    requires p == (((x as word64 >> 17) | (x as word64 << 15)) & 0xffff_ffff) ^ (((x as word64 >> 19) | (x as word64 << 13)) & 0xffff_ffff) ^ (x as word64 >> 10)
    requires q == x.RotateRight(17) ^ x.RotateRight(19) ^ (x >> 10)
    ensures p == q as word64
  {
  }

  lemma Ssig1OfWord(x: word)
    ensures Ssig1(x as word64) == SmallSigma1(x) as word64
  {
    Ssig1Bits(x, Ssig1(x as word64), SmallSigma1(x));
  }

  lemma Ssig1Agrees(x: word)
    ensures Ssig1(Ext(x)) == Ext(SmallSigma1(x))
  {
    hide Ssig1, SmallSigma1;
    Ssig1OfWord(x);
  }

  function MaskedSum(x: word64, y: word64): word64 {
    (x + y) & 0xffff_ffff
  }

  lemma MaskedSumIs(x: word64, y: word64)
    ensures MaskedSum(x, y) == Mask32(Add(x, y))
  {
  }

  lemma HighBitsDoNotMatter(x: word64, y: word64)
    ensures MaskedSum(x, y) == MaskedSum(x & 0xffff_ffff, y & 0xffff_ffff)
  {
  }

  lemma MasksDoNotMatter(x: word64, y: word64)
    ensures MaskedSum(x, y) == MaskedSum(Mask32(x), Mask32(y))
  {
    hide MaskedSum;
    HighBitsDoNotMatter(x, y);
  }

  lemma MaskBits(a: word, p: word64)
    requires p == a as word64 & 0xffff_ffff
    ensures p == a as word64
  {
  }

  lemma MaskOfWord(a: word)
    ensures Mask32(a as word64) == a as word64
  {
    MaskBits(a, Mask32(a as word64));
  }

  lemma MaskOfExt(a: word)
    ensures Mask32(Ext(a)) == Ext(a)
  {
    hide Mask32;
    MaskOfWord(a);
  }

  lemma SumBits(a: word, b: word, p: word64, q: word)
    requires p == (a as word64 + b as word64) & 0xffff_ffff && q == a + b
    ensures p == q as word64
  {
  }

  lemma SumOfWords(a: word, b: word)
    ensures MaskedSum(a as word64, b as word64) == Plus(a, b) as word64
  {
    SumBits(a, b, MaskedSum(a as word64, b as word64), Plus(a, b));
  }

  lemma SumOfExts(a: word, b: word)
    ensures MaskedSum(Ext(a), Ext(b)) == Ext(Plus(a, b))
  {
    hide MaskedSum, Plus;
    SumOfWords(a, b);
  }

  /** Sums may run past 32 bits: masking the total once is adding modulo 2^32 all along. */
  lemma SumAgrees(x: word64, y: word64, a: word, b: word)
    requires Mask32(x) == Ext(a) && Mask32(y) == Ext(b)
    ensures Mask32(Add(x, y)) == Ext(Plus(a, b))
  {
    hide Mask32, Add, Plus, MaskedSum, Ext;
    MaskedSumIs(x, y);
    MasksDoNotMatter(x, y);
    SumOfExts(a, b);
  }

  /** The next word of the schedule, as the code sums it before masking. */
  function ExpandWide(w2: word64, w7: word64, w15: word64, w16: word64): word64 {
    Add(Add(Add(Ssig1(w2), w7), Ssig0(w15)), w16)
  }

  lemma ExpandAgrees(w2: word, w7: word, w15: word, w16: word)
    ensures Mask32(ExpandWide(Ext(w2), Ext(w7), Ext(w15), Ext(w16))) == Ext(Expand(w2, w7, w15, w16))
  {
    hide Mask32, Add, Plus, Ext, Ssig0, Ssig1, SmallSigma0, SmallSigma1;
    Ssig1Agrees(w2);
    Ssig0Agrees(w15);
    var a, b := SmallSigma1(w2), SmallSigma0(w15);
    MaskOfExt(a);
    MaskOfExt(w7);
    MaskOfExt(b);
    MaskOfExt(w16);
    SumAgrees(Ext(a), Ext(w7), a, w7);
    SumAgrees(Add(Ext(a), Ext(w7)), Ext(b), Plus(a, w7), b);
    SumAgrees(Add(Add(Ext(a), Ext(w7)), Ext(b)), Ext(w16), Plus(Plus(a, w7), b), w16);
  }

  /** The eight registers, or the digest, as the code keeps them. */
  datatype Registers = Registers(
    a: word64, b: word64, c: word64, d: word64, e: word64, f: word64, g: word64, h: word64)

  function Widened(v: Vars): Registers {
    Registers(Ext(v.a), Ext(v.b), Ext(v.c), Ext(v.d), Ext(v.e), Ext(v.f), Ext(v.g), Ext(v.h))
  }

  function Temp1(r: Registers, k: word64, w: word64): word64 {
    Add(Add(Add(Add(r.h, Bsig1(r.e)), ChWide(r.e, r.f, r.g)), k), w)
  }

  function Temp2(r: Registers): word64 {
    Add(Bsig0(r.a), MajWide(r.a, r.b, r.c))
  }

  /** The temporaries are not masked, and right modulo 2^32. */
  lemma Temp1Agrees(v: Vars, k: word, w: word)
    ensures Mask32(Temp1(Widened(v), Ext(k), Ext(w))) == Ext(T1(v, k, w))
  {
    hide Mask32, Add, Plus, Ext, Bsig1, BigSigma1, ChWide, Ch;
    Bsig1Agrees(v.e);
    ChAgrees(v.e, v.f, v.g);
    var s, c := BigSigma1(v.e), Ch(v.e, v.f, v.g);
    MaskOfExt(v.h);
    MaskOfExt(s);
    MaskOfExt(c);
    MaskOfExt(k);
    MaskOfExt(w);
    var s1 := Add(Ext(v.h), Ext(s));
    SumAgrees(Ext(v.h), Ext(s), v.h, s);
    var s2 := Add(s1, Ext(c));
    SumAgrees(s1, Ext(c), Plus(v.h, s), c);
    var s3 := Add(s2, Ext(k));
    SumAgrees(s2, Ext(k), Plus(Plus(v.h, s), c), k);
    SumAgrees(s3, Ext(w), Plus(Plus(Plus(v.h, s), c), k), w);
  }

  lemma Temp2Agrees(v: Vars)
    ensures Mask32(Temp2(Widened(v))) == Ext(T2(v))
  {
    hide Mask32, Add, Plus, Ext, Bsig0, BigSigma0, MajWide, Maj;
    Bsig0Agrees(v.a);
    MajAgrees(v.a, v.b, v.c);
    var s, m := BigSigma0(v.a), Maj(v.a, v.b, v.c);
    MaskOfExt(s);
    MaskOfExt(m);
    SumAgrees(Ext(s), Ext(m), s, m);
  }

  /** One round in 64-bit words is a round of section 6.2.2. */
  function RoundWide(r: Registers, k: word64, w: word64): Registers {
    var temp1, temp2 := Temp1(r, k, w), Temp2(r);
    Registers(Mask32(Add(temp1, temp2)), r.a, r.b, r.c, Mask32(Add(r.d, temp1)), r.e, r.f, r.g)
  }

  lemma RoundAgrees(v: Vars, k: word, w: word)
    ensures RoundWide(Widened(v), Ext(k), Ext(w)) == Widened(Round(v, k, w))
  {
    hide Mask32, Add, Plus, Ext, Temp1, Temp2, T1, T2;
    Temp1Agrees(v, k, w);
    Temp2Agrees(v);
    MaskOfExt(v.d);
    SumAgrees(Temp1(Widened(v), Ext(k), Ext(w)), Temp2(Widened(v)), T1(v, k, w), T2(v));
    SumAgrees(Ext(v.d), Temp1(Widened(v), Ext(k), Ext(w)), v.d, T1(v, k, w));
  }

  /** The schedule array up to `n` holds the schedule, each word masked once. */
  ghost predicate HoldsSchedule(w: seq<word64>, block: seq<byte>, n: nat)
    requires |block| == 64 && n <= 64
  {
    |w| == 64 && forall t :: 0 <= t < n ==> w[t] == Ext(Schedule(block, t))
  }

  method FillSchedule(block: seq<byte>) returns (w: array<word64>)
    requires |block| == 64
    ensures fresh(w) && HoldsSchedule(w[..], block, 64)
  {
    hide Mask32, Ext, FourBytes, BigEndian, Octet, Add, Ssig0, Ssig1, ExpandWide, Expand;
    w := new word64[64](_ => 0);
    for i := 0 to 16
      invariant HoldsSchedule(w[..], block, i)
    {
      var p, q, r, s := Octet(block[i * 4]), Octet(block[i * 4 + 1]), Octet(block[i * 4 + 2]), Octet(block[i * 4 + 3]);
      w[i] := FourBytes(p, q, r, s);
      FourBytesAgree(p, q, r, s);
      FirstWords(block, i);
    }
    for i := 16 to 64
      invariant HoldsSchedule(w[..], block, i)
    {
      ghost var before := w[..];
      w[i] := Mask32(ExpandWide(w[i - 2], w[i - 7], w[i - 15], w[i - 16]));
      ExpandAgrees(Schedule(block, i - 2), Schedule(block, i - 7), Schedule(block, i - 15), Schedule(block, i - 16));
      LaterWords(block, i);
      assert before[i - 2] == w[i - 2] && before[i - 7] == w[i - 7];
      assert before[i - 15] == w[i - 15] && before[i - 16] == w[i - 16];
    }
  }

  lemma FirstWords(block: seq<byte>, t: nat)
    requires |block| == 64 && t < 16
    ensures Schedule(block, t) ==
            BigEndian(Octet(block[t * 4]), Octet(block[t * 4 + 1]), Octet(block[t * 4 + 2]), Octet(block[t * 4 + 3]))
  {
    hide BigEndian, Octet;
  }

  lemma LaterWords(block: seq<byte>, t: nat)
    requires |block| == 64 && 16 <= t < 64
    ensures Schedule(block, t) ==
            Expand(Schedule(block, t - 2), Schedule(block, t - 7), Schedule(block, t - 15), Schedule(block, t - 16))
  {
    hide Expand;
  }

  /** `hash256_block`: the digest after the block, whatever its eight words were before. */
  method Hash256Block(digest: Registers, block: seq<byte>, ghost v: Vars) returns (r: Registers)
    requires |block| == 64 && digest == Widened(v)
    ensures r == Widened(Compress(v, block))
  {
    hide Mask32, Ext, Add, Temp1, Temp2, Schedule, Round, Plus;
    var w := FillSchedule(block);
    var a, b, c, d := digest.a, digest.b, digest.c, digest.d;
    var e, f, g, h := digest.e, digest.f, digest.g, digest.h;
    RoundsStart(v, block);
    for i := 0 to 64
      invariant HoldsSchedule(w[..], block, 64)
      invariant Registers(a, b, c, d, e, f, g, h) == Widened(Rounds(v, block, i))
    {
      ghost var before := Rounds(v, block, i);
      var now := Registers(a, b, c, d, e, f, g, h);
      RoundAgrees(before, K[i], Schedule(block, i));
      RoundsStep(v, block, i);
      var k := WidenedConstant(i);
      assert w[..][i] == w[i];
      var temp1 := Temp1(now, k, w[i]);
      var temp2 := Temp2(now);
      h := g;
      g := f;
      f := e;
      e := Mask32(Add(d, temp1));
      d := c;
      c := b;
      b := a;
      a := Mask32(Add(temp1, temp2));
    }
    ghost var last := Rounds(v, block, 64);
    r := Registers(
      Mask32(Add(digest.a, a)), Mask32(Add(digest.b, b)), Mask32(Add(digest.c, c)), Mask32(Add(digest.d, d)),
      Mask32(Add(digest.e, e)), Mask32(Add(digest.f, f)), Mask32(Add(digest.g, g)), Mask32(Add(digest.h, h)));
    WordsAdd(v.a, last.a);
    WordsAdd(v.b, last.b);
    WordsAdd(v.c, last.c);
    WordsAdd(v.d, last.d);
    WordsAdd(v.e, last.e);
    WordsAdd(v.f, last.f);
    WordsAdd(v.g, last.g);
    WordsAdd(v.h, last.h);
  }

  lemma RoundsStart(v: Vars, block: seq<byte>)
    requires |block| == 64
    ensures Rounds(v, block, 0) == v
  {
  }

  lemma RoundsStep(v: Vars, block: seq<byte>, t: nat)
    requires |block| == 64 && t < 64
    ensures Rounds(v, block, t + 1) == Round(Rounds(v, block, t), K[t], Schedule(block, t))
  {
    hide Round, Schedule;
  }

  lemma WordsAdd(a: word, b: word)
    ensures Mask32(Add(Ext(a), Ext(b))) == Ext(Plus(a, b))
  {
    hide Mask32, Add, Ext, Plus;
    MaskOfExt(a);
    MaskOfExt(b);
    SumAgrees(Ext(a), Ext(b), a, b);
  }

  /** The round constants as the code holds them, in 64-bit words. */
  function WidenedConstant(i: nat): word64
    requires i < 64
  {
    Ext(K[i])
  }
}
