/** Base64 of sections 4 and 5 of RFC 4648: the encoder, and the decoder that takes both alphabets. */
module Base64 {
  import opened Alphabets
  import opened Bytes

  const PAD: byte := 61

  /** The character for a value, in the standard or the URL-safe alphabet. */
  function Letter(v: int, urlSafe: bool): byte
    requires 0 <= v < 64
  {
    if v < 26 then 65 + v
    else if v < 52 then 71 + v
    else if v < 62 then v - 4
    else if v == 62 then if urlSafe then 45 else 43
    else if urlSafe then 95 else 47
  }

  /** The value of a character of either alphabet; zero for any other. */
  function Key(c: byte): (v: int)
    ensures 0 <= v < 64
  {
    if 65 <= c <= 90 then c - 65
    else if 97 <= c <= 122 then c - 71
    else if 48 <= c <= 57 then c as int + 4
    else if c == 43 || c == 45 then 62
    else if c == 47 || c == 95 then 63
    else 0
  }

  lemma KeyOfLetter(v: int, urlSafe: bool)
    requires 0 <= v < 64
    ensures Key(Letter(v, urlSafe)) == v && Letter(v, urlSafe) != PAD
  {
  }

  /** The character at a position of the alphabet, as its code; the two alphabets differ in the last two. */
  function Listed(v: int, urlSafe: bool): int
    requires 0 <= v < 64
  {
    var c :=
      if v < 13 then UPPER_A[v] else if v < 26 then UPPER_N[v - 13]
      else if v < 39 then LOWER_A[v - 26] else if v < 52 then LOWER_N[v - 39]
      else if v < 62 then DIGITS[v - 52]
      else if urlSafe then "-_"[v - 62] else "+/"[v - 62];
    c as int
  }

  /** The encoder's letters are the alphabet, and the decoder knows their positions; anything else counts as the first. */
  lemma LetterIsListed(v: int, urlSafe: bool)
    requires 0 <= v < 64
    ensures Letter(v, urlSafe) as int == Listed(v, urlSafe) && Key(Letter(v, urlSafe)) == v
  {
    KeyOfLetter(v, urlSafe);
    hide Key;
    if v < 13 {
      UpperIs(v);
    } else if v < 26 {
      UpperIs(v - 13);
    } else if v < 39 {
      LowerIs(v - 26);
    } else if v < 52 {
      LowerIs(v - 39);
    } else if v < 62 {
      DigitIs(v - 52);
    } else if v == 62 {
      assert "-_"[0] as int == 45 && "+/"[0] as int == 43;
    } else {
      assert "-_"[1] as int == 95 && "+/"[1] as int == 47;
    }
  }

  lemma UnlistedIsZero(c: byte)
    ensures (forall v, urlSafe :: 0 <= v < 64 ==> Listed(v, urlSafe) != c) ==> Key(c) == 0
  {
    hide Listed;
    var v := Key(c);
    if v != 0 {
      LetterIsListed(v, c == 45 || c == 95);
    }
  }

  /** Six bits a character, most significant first, the last one filled up with zero bits. */
  function Letters(d: seq<byte>, urlSafe: bool): seq<byte> {
    if d == [] then []
    else if |d| == 1 then [Letter(d[0] / 4, urlSafe), Letter(d[0] % 4 * 16, urlSafe)]
    else if |d| == 2 then
      [Letter(d[0] / 4, urlSafe), Letter(d[0] % 4 * 16 + d[1] / 16, urlSafe), Letter(d[1] % 16 * 4, urlSafe)]
    else Group(d[0], d[1], d[2], urlSafe) + Letters(d[3..], urlSafe)
  }

  function Group(a: byte, b: byte, c: byte, urlSafe: bool): (r: seq<byte>)
    ensures |r| == 4
  {
    [Letter(a / 4, urlSafe), Letter(a % 4 * 16 + b / 16, urlSafe), Letter(b % 16 * 4 + c / 64, urlSafe),
     Letter(c % 64, urlSafe)]
  }

  lemma KeysOfGroup(a: byte, b: byte, c: byte, urlSafe: bool)
    ensures var r := Group(a, b, c, urlSafe);
      && Key(r[0]) == a / 4 && Key(r[1]) == a % 4 * 16 + b / 16
      && Key(r[2]) == b % 16 * 4 + c / 64 && Key(r[3]) == c % 64 && PAD !in r
  {
    hide Letter, Key;
    KeyOfLetter(a / 4, urlSafe);
    KeyOfLetter(a % 4 * 16 + b / 16, urlSafe);
    KeyOfLetter(b % 16 * 4 + c / 64, urlSafe);
    KeyOfLetter(c % 64, urlSafe);
  }

  function Padding(n: nat): seq<byte> {
    if n % 3 == 1 then [PAD, PAD] else if n % 3 == 2 then [PAD] else []
  }

  function Encoded(d: seq<byte>, urlSafe: bool): seq<byte> {
    Letters(d, urlSafe) + Padding(|d|)
  }

  function Number(a: byte, b: byte, c: byte): (n: int)
    ensures 0 <= n < 0x100_0000
  {
    a as int * 0x1_0000 + b as int * 0x100 + c
  }

  /**
   Three bytes are a number of 24 bits, and four characters stand for its four digits in base 64; missing bytes
   count as zero, and the characters that only they would decide are padding.
   */
  predicate Represents(d: seq<byte>, t: seq<byte>, urlSafe: bool)
    decreases |d|
  {
    if d == [] then t == []
    else
      var n := Number(d[0], if |d| > 1 then d[1] else 0, if |d| > 2 then d[2] else 0);
      && |t| >= 4
      && t[0] as int == Listed(n / 0x4_0000, urlSafe) && t[1] as int == Listed(n / 0x1000 % 64, urlSafe)
      && t[2] as int == (if |d| > 1 then Listed(n / 64 % 64, urlSafe) else '=' as int)
      && t[3] as int == (if |d| > 2 then Listed(n % 64, urlSafe) else '=' as int)
      && Represents(if |d| > 3 then d[3..] else [], t[4..], urlSafe)
  }

  lemma Sextets(a: byte, b: byte, c: byte)
    ensures var n := Number(a, b, c);
      && n / 0x4_0000 == a / 4 && n / 0x1000 % 64 == a % 4 * 16 + b / 16
      && n / 64 % 64 == b % 16 * 4 + c / 64 && n % 64 == c % 64
  {
    var a1, a0, b1, b0, c1, c0 := a / 4, a % 4, b / 16, b % 16, c / 64, c % 64;
    assert a == 4 * a1 + a0 && b == 16 * b1 + b0 && c == 64 * c1 + c0;
    DigitsInBase64(Number(a, b, c), a1, a0 * 16 + b1, b0 * 4 + c1, c0);
  }

  lemma DigitsInBase64(n: int, p: int, q: int, r: int, s: int)
    requires 0 <= p && 0 <= q < 64 && 0 <= r < 64 && 0 <= s < 64
    requires n == 0x4_0000 * p + 0x1000 * q + 64 * r + s
    ensures n / 0x4_0000 == p && n / 0x1000 % 64 == q && n / 64 % 64 == r && n % 64 == s
  {
    LastDigit(64 * p + q, n / 0x1000, n, 64 * r + s);
    assert n / 64 == 0x1000 * p + 64 * q + r && n % 64 == s;
  }

  lemma LastDigit(high: int, quotient: int, n: int, low: int)
    requires n == 0x1000 * high + low && 0 <= low < 0x1000 && quotient == n / 0x1000
    ensures quotient == high
  {
  }

  lemma {:induction false} EncodedRepresents(d: seq<byte>, urlSafe: bool)
    ensures Represents(d, Encoded(d, urlSafe), urlSafe)
  {
    hide Letter, Letters, Listed, Group, Represents;
    if d == [] {
      NothingRepresents(urlSafe);
    } else if |d| >= 3 {
      LettersCons(d, urlSafe);
      EncodedRepresents(d[3..], urlSafe);
      GroupRepresents(d, Encoded(d[3..], urlSafe), urlSafe);
      var group, rest := Group(d[0], d[1], d[2], urlSafe), Letters(d[3..], urlSafe);
      assert group + rest + Padding(|d|) == group + (rest + Padding(|d| - 3));
    } else if |d| == 1 {
      OneRepresents(d, urlSafe);
    } else {
      TwoRepresent(d, urlSafe);
    }
  }

  lemma NothingRepresents(urlSafe: bool)
    ensures Represents([], [], urlSafe) && Encoded([], urlSafe) == []
  {
  }

  lemma GroupRepresents(d: seq<byte>, t: seq<byte>, urlSafe: bool)
    requires |d| >= 3 && Represents(d[3..], t, urlSafe)
    ensures Represents(d, Group(d[0], d[1], d[2], urlSafe) + t, urlSafe)
  {
    hide Letter, Listed, Number;
    Sextets(d[0], d[1], d[2]);
    LetterIsListed(d[0] / 4, urlSafe);
    LetterIsListed(d[0] % 4 * 16 + d[1] / 16, urlSafe);
    LetterIsListed(d[1] % 16 * 4 + d[2] / 64, urlSafe);
    LetterIsListed(d[2] % 64, urlSafe);
    var all := Group(d[0], d[1], d[2], urlSafe) + t;
    assert all[4..] == t;
    assert |d| == 3 ==> d[3..] == [];
  }

  lemma LastRepresents(d: seq<byte>, t: seq<byte>, n: int, urlSafe: bool)
    requires 0 < |d| < 3 && |t| == 4 && n == Number(d[0], if |d| > 1 then d[1] else 0, 0)
    requires t[0] as int == Listed(n / 0x4_0000, urlSafe) && t[1] as int == Listed(n / 0x1000 % 64, urlSafe)
    requires t[2] as int == (if |d| > 1 then Listed(n / 64 % 64, urlSafe) else PAD as int) && t[3] == PAD
    ensures Represents(d, t, urlSafe)
  {
    hide Listed, Number;
    assert t[4..] == [];
  }

  lemma OneRepresents(d: seq<byte>, urlSafe: bool)
    requires |d| == 1
    ensures Represents(d, Encoded(d, urlSafe), urlSafe)
  {
    hide Letter, Listed, Number, Represents;
    var t := [Letter(d[0] / 4, urlSafe), Letter(d[0] % 4 * 16, urlSafe), PAD, PAD];
    assert Encoded(d, urlSafe) == t;
    hide Encoded, Letters, Padding;
    Sextets(d[0], 0, 0);
    LetterIsListed(d[0] / 4, urlSafe);
    LetterIsListed(d[0] % 4 * 16, urlSafe);
    LastRepresents(d, t, Number(d[0], 0, 0), urlSafe);
  }

  lemma TwoRepresent(d: seq<byte>, urlSafe: bool)
    requires |d| == 2
    ensures Represents(d, Encoded(d, urlSafe), urlSafe)
  {
    hide Letter, Listed, Number, Represents;
    var second := d[0] % 4 * 16 + d[1] / 16;
    var t := [Letter(d[0] / 4, urlSafe), Letter(second, urlSafe), Letter(d[1] % 16 * 4, urlSafe), PAD];
    assert Encoded(d, urlSafe) == t;
    hide Encoded, Letters, Padding;
    Sextets(d[0], d[1], 0);
    LetterIsListed(d[0] / 4, urlSafe);
    LetterIsListed(second, urlSafe);
    LetterIsListed(d[1] % 16 * 4, urlSafe);
    LastRepresents(d, t, Number(d[0], d[1], 0), urlSafe);
  }

  /** The four characters of one group; shifts and masks of the bytes are divisions and remainders here. */
  method EncodeGroup(a: byte, b: byte, c: byte, urlSafe: bool) returns (four: seq<byte>)
    ensures four == Group(a, b, c, urlSafe)
  {
    hide Letter;
    var h := a % 4 * 16;
    var first, second := Letter(a / 4, urlSafe), Letter(h + b / 16, urlSafe);
    h := b % 16 * 4;
    four := [first, second, Letter(h + c / 64, urlSafe), Letter(c % 64, urlSafe)];
  }

  /** The last one or two bytes, with padding, or nothing. */
  method EncodeRest(d: seq<byte>, urlSafe: bool) returns (ret: seq<byte>)
    requires |d| < 3
    ensures ret == Letters(d, urlSafe) + Padding(|d|)
  {
    hide Letter, Group;
    ret := [];
    if |d| == 1 {
      ret := [Letter(d[0] / 4, urlSafe), Letter(d[0] % 4 * 16, urlSafe)];
      ret := ret + [PAD, PAD];
    } else if |d| == 2 {
      ret := [Letter(d[0] / 4, urlSafe), Letter(d[0] % 4 * 16 + d[1] / 16, urlSafe), Letter(d[1] % 16 * 4, urlSafe)];
      ret := ret + [PAD];
    }
  }

  /** `base64encode`. */
  method Encode(d: seq<byte>, urlSafe: bool) returns (ret: seq<byte>)
    ensures ret == Encoded(d, urlSafe)
    ensures Represents(d, ret, urlSafe)
    ensures |ret| == (|d| + 2) / 3 * 4
  {
    hide Letter, Letters, Group, Padding, Represents, Encoded;
    ret := [];
    var i, size := 0, |d|;
    assert d[0..] == d;
    while size >= 3
      invariant 0 <= i && 0 <= size && i + size == |d| && size % 3 == |d| % 3
      invariant ret + Letters(d[i..], urlSafe) == Letters(d, urlSafe)
      decreases size
    {
      NextGroup(d, i, urlSafe, ret);
      var four := EncodeGroup(d[i], d[i + 1], d[i + 2], urlSafe);
      ret := ret + four;
      i, size := i + 3, size - 3;
    }
    var rest := EncodeRest(d[i..], urlSafe);
    assert ret + Letters(d[i..], urlSafe) + Padding(size) == ret + (Letters(d[i..], urlSafe) + Padding(size));
    ret := ret + rest;
    PaddingRepeats(|d|, size);
    EncodedIs(d, urlSafe);
    EncodedRepresents(d, urlSafe);
  }

  lemma PaddingRepeats(n: nat, size: nat)
    requires size == n % 3
    ensures Padding(n) == Padding(size)
  {
  }

  lemma EncodedIs(d: seq<byte>, urlSafe: bool)
    ensures Encoded(d, urlSafe) == Letters(d, urlSafe) + Padding(|d|)
    ensures |Encoded(d, urlSafe)| == (|d| + 2) / 3 * 4
  {
    hide Letters, Padding;
    EncodedLength(d, urlSafe);
  }

  lemma EncodedLength(d: seq<byte>, urlSafe: bool)
    ensures |Encoded(d, urlSafe)| == (|d| + 2) / 3 * 4
  {
    hide Letters;
    LettersLength(d, urlSafe);
  }

  lemma NextGroup(d: seq<byte>, i: nat, urlSafe: bool, ret: seq<byte>)
    requires i + 3 <= |d|
    ensures ret + Letters(d[i..], urlSafe) ==
            ret + Group(d[i], d[i + 1], d[i + 2], urlSafe) + Letters(d[i + 3..], urlSafe)
  {
    hide Letters, Group;
    assert d[i..][3..] == d[i + 3..];
    LettersCons(d[i..], urlSafe);
    var group, rest := Group(d[i], d[i + 1], d[i + 2], urlSafe), Letters(d[i + 3..], urlSafe);
    assert ret + (group + rest) == ret + group + rest;
  }

  lemma LettersCons(d: seq<byte>, urlSafe: bool)
    requires |d| >= 3
    ensures Letters(d, urlSafe) == Group(d[0], d[1], d[2], urlSafe) + Letters(d[3..], urlSafe)
  {
    hide Letter, Group;
  }

  /** How many bytes the text stands for, padded or not. */
  function DecodedSize(t: seq<byte>): (n: nat)
    requires |t| >= 2
    ensures n % 3 == 0 ==> n / 3 * 4 <= |t|
    ensures n % 3 != 0 ==> n / 3 * 4 + n % 3 + 1 <= |t|
  {
    var q := |t| / 4;
    if |t| % 4 == 2 then q * 3 + 1
    else if |t| % 4 == 3 then q * 3 + 2
    else if t[|t| - 2] == PAD then q * 3 - 2
    else if t[|t| - 1] == PAD then q * 3 - 1
    else q * 3
  }

  /** Four characters for three bytes, and one more than bytes at the end. */
  predicate Enough(t: seq<byte>, n: nat) {
    if n % 3 == 0 then n / 3 * 4 <= |t| else n / 3 * 4 + n % 3 + 1 <= |t|
  }

  /** `n` bytes from groups of four characters. */
  function Taken(t: seq<byte>, n: nat): seq<byte>
    requires Enough(t, n)
  {
    if n == 0 then []
    else if n == 1 then [Key(t[0]) * 4 + Key(t[1]) / 16]
    else if n == 2 then [Key(t[0]) * 4 + Key(t[1]) / 16, Key(t[1]) % 16 * 16 + Key(t[2]) / 4]
    else
      [Key(t[0]) * 4 + Key(t[1]) / 16, Key(t[1]) % 16 * 16 + Key(t[2]) / 4, Key(t[2]) % 4 * 64 + Key(t[3])]
      + Taken(t[4..], n - 3)
  }

  function Decoded(t: seq<byte>): seq<byte>
    requires |t| >= 2
  {
    Taken(t, DecodedSize(t))
  }

  /** `base64decode` on at least two characters. */
  method Decode(t: seq<byte>) returns (ret: seq<byte>)
    requires |t| >= 2
    ensures ret == Decoded(t)
  {
    hide Key, Taken, Enough, DecodedSize;
    var size := DecodedSize(t);
    ghost var total := size;
    SizeIsEnough(t);
    ret := [];
    var i := 0;
    assert t[0..] == t;
    while size >= 3
      invariant i <= |t| && Enough(t[i..], size)
      invariant ret + Taken(t[i..], size) == Taken(t, total)
      decreases size
    {
      TakenGroup(t, i, size);
      var odd, even := Key(t[i]), Key(t[i + 1]);
      var first := odd * 4 + even / 16;
      odd := Key(t[i + 2]);
      var second := even % 16 * 16 + odd / 4;
      even := Key(t[i + 3]);
      var group := [first, second, odd % 4 * 64 + even];
      assert ret + (group + Taken(t[i + 4..], size - 3)) == ret + group + Taken(t[i + 4..], size - 3);
      ret := ret + group;
      i, size := i + 4, size - 3;
    }
    TakenRest(t, i, size);
    if size == 2 {
      var odd, even := Key(t[i]), Key(t[i + 1]);
      var first := odd * 4 + even / 16;
      odd := Key(t[i + 2]);
      ret := ret + [first, even % 16 * 16 + odd / 4];
    } else if size == 1 {
      ret := ret + [Key(t[i]) * 4 + Key(t[i + 1]) / 16];
    } else {
      assert ret + [] == ret;
    }
  }

  lemma SizeIsEnough(t: seq<byte>)
    requires |t| >= 2
    ensures Enough(t, DecodedSize(t))
  {
  }

  lemma TakenGroup(t: seq<byte>, i: nat, n: nat)
    requires i <= |t| && n >= 3 && Enough(t[i..], n)
    ensures i + 4 <= |t| && Enough(t[i + 4..], n - 3)
    ensures Taken(t[i..], n) ==
            [Key(t[i]) * 4 + Key(t[i + 1]) / 16, Key(t[i + 1]) % 16 * 16 + Key(t[i + 2]) / 4,
             Key(t[i + 2]) % 4 * 64 + Key(t[i + 3])]
            + Taken(t[i + 4..], n - 3)
  {
    hide Key;
    assert t[i..][4..] == t[i + 4..];
  }

  lemma TakenRest(t: seq<byte>, i: nat, n: nat)
    requires i <= |t| && n < 3 && Enough(t[i..], n)
    ensures n > 0 ==> i + n + 1 <= |t|
    ensures Taken(t[i..], n) ==
            if n == 0 then []
            else if n == 1 then [Key(t[i]) * 4 + Key(t[i + 1]) / 16]
            else [Key(t[i]) * 4 + Key(t[i + 1]) / 16, Key(t[i + 1]) % 16 * 16 + Key(t[i + 2]) / 4]
  {
    hide Key;
  }

  lemma {:induction false} LettersLength(d: seq<byte>, urlSafe: bool)
    ensures |Letters(d, urlSafe)| == |d| / 3 * 4 + if |d| % 3 == 0 then 0 else |d| % 3 + 1
    ensures PAD !in Letters(d, urlSafe)
  {
    hide Letter, Group;
    if |d| >= 3 {
      LettersLength(d[3..], urlSafe);
      KeysOfGroup(d[0], d[1], d[2], urlSafe);
    } else if |d| == 2 {
      KeyOfLetter(d[0] / 4, urlSafe);
      KeyOfLetter(d[0] % 4 * 16 + d[1] / 16, urlSafe);
      KeyOfLetter(d[1] % 16 * 4, urlSafe);
    } else if |d| == 1 {
      KeyOfLetter(d[0] / 4, urlSafe);
      KeyOfLetter(d[0] % 4 * 16, urlSafe);
    }
  }

  /** Whatever follows the characters, taking as many bytes as were encoded gives them back. */
  lemma {:induction false} TakenIsEncoded(d: seq<byte>, urlSafe: bool, after: seq<byte>)
    ensures |Letters(d, urlSafe)| == |d| / 3 * 4 + if |d| % 3 == 0 then 0 else |d| % 3 + 1
    ensures Taken(Letters(d, urlSafe) + after, |d|) == d
  {
    hide Letter, Key, Letters, Taken;
    LettersLength(d, urlSafe);
    if |d| >= 3 {
      LettersLength(d[3..], urlSafe);
      TakenIsEncoded(d[3..], urlSafe, after);
      FirstGroup(d, urlSafe, after);
    } else {
      LastGroupBack(d, urlSafe, after);
    }
  }

  lemma FirstGroup(d: seq<byte>, urlSafe: bool, after: seq<byte>)
    requires |d| >= 3 && Enough(Letters(d, urlSafe) + after, |d|) && Enough(Letters(d[3..], urlSafe) + after, |d| - 3)
    requires Taken(Letters(d[3..], urlSafe) + after, |d| - 3) == d[3..]
    ensures Taken(Letters(d, urlSafe) + after, |d|) == d
  {
    hide Letter, Key, Enough, Letters, Taken, Group;
    var head, rest := Group(d[0], d[1], d[2], urlSafe), Letters(d[3..], urlSafe);
    LettersCons(d, urlSafe);
    HeadAndRest(head, rest, after);
    KeysOfGroup(d[0], d[1], d[2], urlSafe);
    TakenCons(Letters(d, urlSafe) + after, |d|);
    Regrouped(d[0], d[1], d[2]);
    assert d == [d[0], d[1], d[2]] + d[3..];
  }

  lemma HeadAndRest(head: seq<byte>, rest: seq<byte>, after: seq<byte>)
    requires |head| == 4
    ensures (head + rest + after)[4..] == rest + after
    ensures forall k :: 0 <= k < 4 ==> (head + rest + after)[k] == head[k]
  {
  }

  lemma TakenCons(t: seq<byte>, n: nat)
    requires n >= 3 && Enough(t, n)
    ensures |t| >= 4 && Enough(t[4..], n - 3)
    ensures Taken(t, n) ==
            [Key(t[0]) * 4 + Key(t[1]) / 16, Key(t[1]) % 16 * 16 + Key(t[2]) / 4, Key(t[2]) % 4 * 64 + Key(t[3])]
            + Taken(t[4..], n - 3)
  {
    hide Key;
  }

  /** Eight bits and eight and eight, cut into six bits four times, and back. */
  lemma Regrouped(a: byte, b: byte, c: byte)
    ensures a / 4 * 4 + (a % 4 * 16 + b / 16) / 16 == a
    ensures (a % 4 * 16 + b / 16) % 16 * 16 + (b % 16 * 4 + c / 64) / 4 == b
    ensures (b % 16 * 4 + c / 64) % 4 * 64 + c % 64 == c
  {
  }

  lemma LastGroupBack(d: seq<byte>, urlSafe: bool, after: seq<byte>)
    requires |d| < 3 && Enough(Letters(d, urlSafe) + after, |d|)
    ensures Taken(Letters(d, urlSafe) + after, |d|) == d
  {
    hide Letter, Key;
    if |d| == 2 {
      KeyOfLetter(d[0] / 4, urlSafe);
      KeyOfLetter(d[0] % 4 * 16 + d[1] / 16, urlSafe);
      KeyOfLetter(d[1] % 16 * 4, urlSafe);
    } else if |d| == 1 {
      KeyOfLetter(d[0] / 4, urlSafe);
      KeyOfLetter(d[0] % 4 * 16, urlSafe);
    }
  }

  /** Decoding an encoding gives the bytes back, for both alphabets, with the padding kept or stripped. */
  lemma DecodeEncode(d: seq<byte>, urlSafe: bool)
    requires d != []
    ensures |Encoded(d, urlSafe)| >= 2 && Decoded(Encoded(d, urlSafe)) == d
    ensures |Letters(d, urlSafe)| >= 2 && Decoded(Letters(d, urlSafe)) == d
  {
    hide Letters, Taken;
    var letters := Letters(d, urlSafe);
    LettersLength(d, urlSafe);
    TakenIsEncoded(d, urlSafe, []);
    TakenIsEncoded(d, urlSafe, Padding(|d|));
    assert letters + [] == letters;
    SizeOfPadded(letters, |d|);
  }

  lemma SizeOfPadded(letters: seq<byte>, n: nat)
    requires n > 0 && PAD !in letters
    requires |letters| == n / 3 * 4 + if n % 3 == 0 then 0 else n % 3 + 1
    ensures |letters| >= 2 && DecodedSize(letters) == n && DecodedSize(letters + Padding(n)) == n
  {
    var last := letters[|letters| - 1];
    assert last in letters && letters[|letters| - 2] in letters;
  }

  /** What any text decodes to, canonical or not: six bits a character, cut to the bytes announced. */
  lemma TakenIsNumber(t: seq<byte>, n: nat)
    requires n > 0 && Enough(t, n)
    ensures |t| >= 2 && Taken(t, n) != []
    ensures n == 1 ==> Taken(t, n) == [(Key(t[0]) * 64 + Key(t[1])) / 16]
    ensures n == 2 ==>
      && |t| >= 3 && |Taken(t, n)| == 2
      && Taken(t, n)[0] as int * 0x100 + Taken(t, n)[1] == (Key(t[0]) * 0x1000 + Key(t[1]) * 64 + Key(t[2])) / 4
    ensures n >= 3 ==>
      && |t| >= 4 && Enough(t[4..], n - 3) && |Taken(t, n)| >= 3
      && Number(Taken(t, n)[0], Taken(t, n)[1], Taken(t, n)[2])
         == Key(t[0]) * 0x4_0000 + Key(t[1]) * 0x1000 + Key(t[2]) * 64 + Key(t[3])
      && Taken(t, n)[3..] == Taken(t[4..], n - 3)
  {
    hide Key;
    if n >= 3 {
      TakenCons(t, n);
      hide Taken;
      Recombined(Key(t[0]), Key(t[1]), Key(t[2]), Key(t[3]));
    } else if n == 2 {
      Recombined(Key(t[0]), Key(t[1]), Key(t[2]), 0);
    } else {
      Recombined(Key(t[0]), Key(t[1]), 0, 0);
    }
  }

  lemma Recombined(p: int, q: int, r: int, s: int)
    requires 0 <= p < 64 && 0 <= q < 64 && 0 <= r < 64 && 0 <= s < 64
    ensures p * 4 + q / 16 == (p * 64 + q) / 16
    ensures (p * 4 + q / 16) * 0x100 + (q % 16 * 16 + r / 4) == (p * 0x1000 + q * 64 + r) / 4
    ensures (p * 4 + q / 16) * 0x1_0000 + (q % 16 * 16 + r / 4) * 0x100 + (r % 4 * 64 + s)
         == p * 0x4_0000 + q * 0x1000 + r * 64 + s
  {
    assert q == q / 16 * 16 + q % 16 && r == r / 4 * 4 + r % 4;
  }
}
