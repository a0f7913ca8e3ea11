/** What the text of a string literal stands for: section 7 of RFC 8259, with UTF-8 of section 3 of RFC 3629. */
module JsonEscapes {
  import opened Bytes
  import opened HexDigits
  import opened Options

  predicate Continues(b: byte) {
    0x80 <= b <= 0xBF
  }

  /** The number that the first bytes encode, in the shortest form only, and how many bytes it takes. */
  function ReadUtf8(b: seq<byte>): (r: Option<(int, nat)>)
    ensures r.Some? ==> 1 <= r.value.1 <= |b|
  {
    if b == [] then None
    else if b[0] <= 0x7F then Some((b[0] as int, 1))
    else if 0xC2 <= b[0] <= 0xDF && |b| >= 2 && Continues(b[1]) then
      Some(((b[0] as int - 0xC0) * 0x40 + (b[1] as int - 0x80), 2))
    else if 0xE0 <= b[0] <= 0xEF && |b| >= 3 && Continues(b[1]) && Continues(b[2]) then
      var code := (b[0] as int - 0xE0) * 0x1000 + (b[1] as int - 0x80) * 0x40 + (b[2] as int - 0x80);
      if code >= 0x800 then Some((code, 3)) else None
    else if 0xF0 <= b[0] <= 0xF4 && |b| >= 4 && Continues(b[1]) && Continues(b[2]) && Continues(b[3]) then
      var code :=
        (b[0] as int - 0xF0) * 0x4_0000 + (b[1] as int - 0x80) * 0x1000 + (b[2] as int - 0x80) * 0x40
        + (b[3] as int - 0x80);
      if 0x1_0000 <= code <= 0x10_FFFF then Some((code, 4)) else None
    else None
  }

  /** The halves of surrogate pairs, which UTF-8 leaves out. */
  predicate IsSurrogate(code: int) {
    0xD800 <= code <= 0xDFFF
  }

  predicate WellFormedUtf8(b: seq<byte>)
    decreases |b|
  {
    b == []
    || (ReadUtf8(b).Some? && !IsSurrogate(ReadUtf8(b).value.0) && WellFormedUtf8(b[ReadUtf8(b).value.1..]))
  }

  /** The letters of the short escapes, and the characters they stand for. */
  const LETTERS: seq<byte> := [34, 92, 47, 98, 102, 110, 114, 116]
  const MEANT: seq<byte> := [34, 92, 47, 8, 12, 10, 13, 9]

  /** A byte as it is, a short escape, or `\u` with the four digits of a code. */
  datatype Char = Plain(b: byte) | Short(which: nat) | Hex(code: int, digits: seq<byte>)

  predicate IsChar(c: Char) {
    match c
    case Plain(b) => b != BACKSLASH
    case Short(which) => which < 8
    case Hex(code, digits) => |digits| == 4 && Writes(digits, code)
  }

  function Spelled(c: Char): (r: seq<byte>)
    requires IsChar(c)
    ensures r != []
  {
    match c
    case Plain(b) => [b]
    case Short(which) => [BACKSLASH, LETTERS[which]]
    case Hex(_, digits) => [BACKSLASH, 117] + digits
  }

  predicate AreChars(cs: seq<Char>) {
    forall k :: 0 <= k < |cs| ==> IsChar(cs[k])
  }

  function AllSpelled(cs: seq<Char>): seq<byte>
    requires AreChars(cs)
  {
    if cs == [] then [] else Spelled(cs[0]) + AllSpelled(cs[1..])
  }

  /** These bytes and no others stand for the character. */
  predicate Means(b: seq<byte>, c: Char)
    requires IsChar(c)
  {
    match c
    case Plain(x) => b == [x]
    case Short(which) => b == [MEANT[which]]
    case Hex(code, _) => ReadUtf8(b) == Some((code, |b|))
  }

  /** The bytes, read from the front, are the characters in order. */
  predicate ReadsAs(b: seq<byte>, cs: seq<Char>)
    requires AreChars(cs)
    decreases |cs|
  {
    if cs == [] then b == []
    else
      match cs[0]
      case Plain(x) => b != [] && b[0] == x && ReadsAs(b[1..], cs[1..])
      case Short(which) => b != [] && b[0] == MEANT[which] && ReadsAs(b[1..], cs[1..])
      case Hex(code, _) =>
        ReadUtf8(b).Some? && ReadUtf8(b).value.0 == code && ReadsAs(b[ReadUtf8(b).value.1..], cs[1..])
  }

  lemma MeansThenReads(b: seq<byte>, rest: seq<byte>, cs: seq<Char>)
    requires cs != [] && AreChars(cs) && Means(b, cs[0]) && ReadsAs(rest, cs[1..])
    ensures ReadsAs(b + rest, cs)
  {
    assert (b + rest)[|b|..] == rest;
  }

  predicate IsAscii(c: Char) {
    c.Plain? ==> c.b < 0x80
  }

  predicate HasSurrogate(cs: seq<Char>) {
    exists k :: 0 <= k < |cs| && cs[k].Hex? && IsSurrogate(cs[k].code)
  }

  /** Bytes that read as ASCII characters and escapes are well-formed UTF-8 unless an escape is half a surrogate pair. */
  lemma {:induction false} WellFormedIff(b: seq<byte>, cs: seq<Char>)
    requires AreChars(cs) && ReadsAs(b, cs) && forall k :: 0 <= k < |cs| ==> IsAscii(cs[k])
    ensures WellFormedUtf8(b) <==> !HasSurrogate(cs)
    decreases |cs|
  {
    if cs != [] {
      var rest := cs[1..];
      var n := if cs[0].Hex? then ReadUtf8(b).value.1 else 1;
      WellFormedIff(b[n..], rest);
      SurrogateAmong(cs);
      if !cs[0].Hex? {
        PlainIsOne(b, cs[0]);
      }
    }
  }

  lemma PlainIsOne(b: seq<byte>, c: Char)
    requires IsChar(c) && !c.Hex? && IsAscii(c) && b != []
    requires b[0] == if c.Plain? then c.b else MEANT[c.which]
    ensures ReadUtf8(b) == Some((b[0] as int, 1)) && b[0] < 0x80
  {
    if c.Short? {
      MeantIsAscii(c.which);
    }
  }

  lemma MeantIsAscii(which: nat)
    requires which < 8
    ensures MEANT[which] < 0x80
  {
    match which
    case 0 => case 1 => case 2 => case 3 => case 4 => case 5 => case 6 => case _ =>
  }

  lemma SurrogateAmong(cs: seq<Char>)
    requires cs != []
    ensures HasSurrogate(cs) <==> (cs[0].Hex? && IsSurrogate(cs[0].code)) || HasSurrogate(cs[1..])
  {
    if HasSurrogate(cs) && !(cs[0].Hex? && IsSurrogate(cs[0].code)) {
      var k :| 0 <= k < |cs| && cs[k].Hex? && IsSurrogate(cs[k].code);
      assert cs[1..][k - 1] == cs[k];
    }
    if HasSurrogate(cs[1..]) {
      var k :| 0 <= k < |cs| - 1 && cs[1..][k].Hex? && IsSurrogate(cs[1..][k].code);
      assert cs[k + 1] == cs[1..][k];
    }
  }
}
