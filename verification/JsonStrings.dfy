/** String literals: the printer's escapes, the parser's scan, and the decoding of one escaped text. */
module JsonStrings {
  import opened Bytes
  import opened HexDigits
  import opened JsonEscapes
  import opened Options

  /** The hexadecimal digit of a value below 16, in lower case. */
  function HexDigit(v: int): byte
    requires 0 <= v < 16
  {
    if v < 10 then 48 + v else 87 + v
  }

  predicate IsHex(c: byte) {
    48 <= c <= 57 || 97 <= c <= 102 || 65 <= c <= 70
  }

  function FromHex(c: byte): (v: int)
    requires IsHex(c)
    ensures 0 <= v < 16
  {
    if c >= 97 then c - 87 else if c >= 65 then c - 55 else c - 48
  }

  /** The letter a backslash turns into a control character, or the character itself; none for the rest. */
  function ShortEscape(letter: byte): Option<byte> {
    if letter == QUOTE || letter == BACKSLASH || letter == 47 then Some(letter)
    else if letter == 98 then Some(8)
    else if letter == 102 then Some(12)
    else if letter == 110 then Some(LF)
    else if letter == 114 then Some(CR)
    else if letter == 116 then Some(TAB)
    else None
  }

  /** How the printer writes one byte of a string. */
  function EscapeByte(c: byte): (r: seq<byte>)
    ensures r != []
  {
    if c == QUOTE || c == BACKSLASH then [BACKSLASH, c]
    else if c == LF then [BACKSLASH, 110]
    else if c == 8 then [BACKSLASH, 98]
    else if c == 12 then [BACKSLASH, 102]
    else if c == CR then [BACKSLASH, 114]
    else if c == TAB then [BACKSLASH, 116]
    else if c < 32 then [BACKSLASH, 117, 48, 48, HexDigit(c / 16), HexDigit(c % 16)]
    else [c]
  }

  function Escaped(s: seq<byte>): seq<byte> {
    if s == [] then [] else EscapeByte(s[0]) + Escaped(s[1..])
  }

  /** `escape`: appends the escaped text to `ret`. */
  method Escape(s: seq<byte>, ret: seq<byte>) returns (r: seq<byte>)
    ensures r == ret + Escaped(s)
  {
    hide HexDigit, Escaped;
    r := ret;
    assert s[0..] == s;
    NothingEscaped();
    for i := 0 to |s|
      invariant r + Escaped(s[i..]) == ret + Escaped(s)
    {
      var c := s[i];
      var piece: seq<byte>;
      if c == QUOTE {
        piece := [BACKSLASH, QUOTE];
      } else if c == BACKSLASH {
        piece := [BACKSLASH, BACKSLASH];
      } else if c == LF {
        piece := [BACKSLASH, 110];
      } else if c == 8 {
        piece := [BACKSLASH, 98];
      } else if c == 12 {
        piece := [BACKSLASH, 102];
      } else if c == CR {
        piece := [BACKSLASH, 114];
      } else if c == TAB {
        piece := [BACKSLASH, 116];
      } else if c < 128 && c < 32 {
        piece := [BACKSLASH, 117, 48, 48];
        piece := piece + [HexDigit(c / 16)];
        piece := piece + [HexDigit(c % 16)];
      } else {
        piece := [c];
      }
      assert piece == EscapeByte(c);
      EscapedFrom(s, i);
      assert r + (piece + Escaped(s[i + 1..])) == r + piece + Escaped(s[i + 1..]);
      r := r + piece;
    }
    assert s[|s|..] == [] && r + [] == r;
  }

  lemma NothingEscaped()
    ensures Escaped([]) == []
  {
  }

  lemma EscapedFrom(s: seq<byte>, i: nat)
    requires i < |s|
    ensures Escaped(s[i..]) == EscapeByte(s[i]) + Escaped(s[i + 1..])
  {
    assert s[i..][1..] == s[i + 1..];
  }

  /** One character of a literal is a plain byte, a short escape, or `\u` with four hexadecimal digits. */
  predicate GoodUnit(t: seq<byte>) {
    && t != []
    && (t[0] == BACKSLASH ==>
          && |t| >= 2
          && if t[1] == 117 then |t| >= 6 && IsHex(t[2]) && IsHex(t[3]) && IsHex(t[4]) && IsHex(t[5])
             else ShortEscape(t[1]).Some?)
  }

  function UnitLength(t: seq<byte>): (n: nat)
    requires GoodUnit(t)
    ensures 1 <= n <= |t|
  {
    if t[0] != BACKSLASH then 1 else if t[1] == 117 then 6 else 2
  }

  /** UTF-8 of a 16-bit code unit; the parser does not join surrogate pairs. */
  function Utf8(code: int): (r: seq<byte>)
    requires 0 <= code < 0x1_0000
    ensures 1 <= |r| <= 3
  {
    if code >= 0x800 then [0xE0 + code / 0x1000, 0x80 + code / 0x40 % 0x40, 0x80 + code % 0x40]
    else if code >= 0x80 then [0xC0 + code / 0x40, 0x80 + code % 0x40]
    else [code]
  }

  function CodeUnit(a: byte, b: byte, c: byte, d: byte): (code: int)
    requires IsHex(a) && IsHex(b) && IsHex(c) && IsHex(d)
    ensures 0 <= code < 0x1_0000
  {
    FromHex(a) * 0x1000 + FromHex(b) * 0x100 + FromHex(c) * 0x10 + FromHex(d)
  }

  function UnitValue(t: seq<byte>): (r: seq<byte>)
    requires GoodUnit(t)
    ensures 1 <= |r| <= UnitLength(t)
    ensures t[0] == BACKSLASH ==> |r| < UnitLength(t)
  {
    if t[0] != BACKSLASH then [t[0]]
    else if t[1] == 117 then Utf8(CodeUnit(t[2], t[3], t[4], t[5]))
    else [ShortEscape(t[1]).value]
  }

  /** A text made of whole units: what lies between the quotes of an accepted literal. */
  predicate GoodText(t: seq<byte>)
    decreases |t|
  {
    t == [] || (GoodUnit(t) && GoodText(t[UnitLength(t)..]))
  }

  function Decoded(t: seq<byte>): (r: seq<byte>)
    requires GoodText(t)
    ensures |r| <= |t|
    decreases |t|
  {
    if t == [] then [] else UnitValue(t) + Decoded(t[UnitLength(t)..])
  }

  /** The text without a backslash is its own decoding: why the parser may skip `unescape` for it. */
  lemma {:induction false} PlainTextIsItself(t: seq<byte>)
    requires BACKSLASH !in t
    ensures GoodText(t) && Decoded(t) == t
    decreases |t|
  {
    if t != [] {
      assert t[0] in t;
      assert forall x :: x in t[1..] ==> x in t;
      PlainTextIsItself(t[1..]);
    }
  }

  lemma GoodUnitPrefix(unit: seq<byte>, rest: seq<byte>)
    requires GoodUnit(unit) && UnitLength(unit) == |unit|
    ensures GoodUnit(unit + rest) && UnitLength(unit + rest) == |unit| && UnitValue(unit + rest) == UnitValue(unit)
    ensures (unit + rest)[|unit|..] == rest
  {
  }

  lemma EscapeByteIsUnit(c: byte)
    ensures var u := EscapeByte(c); GoodUnit(u) && UnitLength(u) == |u| && UnitValue(u) == [c]
  {
    if c < 32 {
      var hi, lo := c / 16, c % 16;
      assert FromHex(HexDigit(hi)) == hi && FromHex(HexDigit(lo)) == lo;
    }
  }

  /** Section 7 of RFC 8259 for arbitrary bytes: what the printer escapes, the reader decodes to the same bytes. */
  lemma {:induction false} EscapeRoundTrip(s: seq<byte>)
    ensures GoodText(Escaped(s)) && Decoded(Escaped(s)) == s
  {
    hide EscapeByte, GoodUnit, UnitLength, UnitValue;
    if s != [] {
      var u, rest := EscapeByte(s[0]), Escaped(s[1..]);
      EscapeByteIsUnit(s[0]);
      GoodUnitPrefix(u, rest);
      EscapeRoundTrip(s[1..]);
      assert s == [s[0]] + s[1..];
    }
  }

  // ----- What a text means, character by character -----

  /** A digit in either case is recognised, and read as what it stands for. */
  lemma DigitIsRead(c: byte, d: int)
    ensures IsHex(c) && FromHex(c) == d <==> Spells(c, d)
  {
    SpellsIs(c, d);
  }

  /** The four digits of any code from 0 to 0xFFFF are read back as that code, and nothing else is. */
  lemma CodeIsRead(t: seq<byte>, code: int)
    requires |t| == 4
    ensures Writes(t, code) <==>
            IsHex(t[0]) && IsHex(t[1]) && IsHex(t[2]) && IsHex(t[3]) && CodeUnit(t[0], t[1], t[2], t[3]) == code
  {
    hide IsHex, FromHex, Spells, CodeUnit;
    WritesFour(t, code);
    FourDigits(t, code);
  }

  lemma WritesFour(t: seq<byte>, code: int)
    requires |t| == 4
    ensures Writes(t, code) <==>
            && code >= 0 && Spells(t[3], code % 16) && Spells(t[2], code / 16 % 16) && Spells(t[1], code / 16 / 16 % 16)
            && Spells(t[0], code / 16 / 16 / 16)
  {
    hide Spells;
    var three, two, one := t[..3], t[..2], t[..1];
    assert three[..2] == two && two[..1] == one && |one| == 1;
    assert Writes(one, code / 16 / 16 / 16) <==> code / 16 / 16 / 16 >= 0 && Spells(t[0], code / 16 / 16 / 16);
    assert Writes(two, code / 16 / 16) <==>
      code / 16 / 16 >= 0 && Spells(t[1], code / 16 / 16 % 16) && Writes(one, code / 16 / 16 / 16);
    assert Writes(three, code / 16) <==> code / 16 >= 0 && Spells(t[2], code / 16 % 16) && Writes(two, code / 16 / 16);
  }

  lemma FourDigits(t: seq<byte>, code: int)
    requires |t| == 4
    ensures code >= 0 && Spells(t[3], code % 16) && Spells(t[2], code / 16 % 16) && Spells(t[1], code / 16 / 16 % 16)
            && Spells(t[0], code / 16 / 16 / 16) <==>
            IsHex(t[0]) && IsHex(t[1]) && IsHex(t[2]) && IsHex(t[3]) && CodeUnit(t[0], t[1], t[2], t[3]) == code
  {
    hide IsHex, FromHex, Spells;
    DigitIsRead(t[3], code % 16);
    DigitIsRead(t[2], code / 16 % 16);
    DigitIsRead(t[1], code / 16 / 16 % 16);
    DigitIsRead(t[0], code / 16 / 16 / 16);
    if code >= 0 {
      PlaceValues(code / 16 / 16 / 16, code / 16 / 16 % 16, code / 16 % 16, code % 16, code);
    }
    if IsHex(t[0]) && IsHex(t[1]) && IsHex(t[2]) && IsHex(t[3]) && CodeUnit(t[0], t[1], t[2], t[3]) == code {
      Places(FromHex(t[0]), FromHex(t[1]), FromHex(t[2]), FromHex(t[3]), code);
    }
  }

  lemma PlaceValues(a: int, b: int, c: int, d: int, code: int)
    requires a == code / 16 / 16 / 16 && b == code / 16 / 16 % 16 && c == code / 16 % 16 && d == code % 16
    ensures a * 0x1000 + b * 0x100 + c * 0x10 + d == code
  {
  }

  lemma Places(a: int, b: int, c: int, d: int, code: int)
    requires 0 <= a < 16 && 0 <= b < 16 && 0 <= c < 16 && 0 <= d < 16
    requires code == a * 0x1000 + b * 0x100 + c * 0x10 + d
    ensures code / 16 / 16 / 16 == a && code / 16 / 16 % 16 == b && code / 16 % 16 == c && code % 16 == d
  {
    assert code / 16 == a * 0x100 + b * 0x10 + c;
    assert code / 16 / 16 == a * 0x10 + b;
  }

  /** The bytes written for a code are its UTF-8, whatever follows. */
  lemma Utf8IsRead(code: int, rest: seq<byte>)
    requires 0 <= code < 0x1_0000
    ensures ReadUtf8(Utf8(code) + rest) == Some((code, |Utf8(code)|))
  {
    var b := Utf8(code) + rest;
    if code >= 0x800 {
      var hi, mid, low := code / 0x1000, code / 0x40 % 0x40, code % 0x40;
      assert code == hi * 0x1000 + mid * 0x40 + low;
      assert b[0] == 0xE0 + hi && b[1] == 0x80 + mid && b[2] == 0x80 + low;
    } else if code >= 0x80 {
      var hi, low := code / 0x40, code % 0x40;
      assert code == hi * 0x40 + low;
      assert b[0] == 0xC0 + hi && b[1] == 0x80 + low;
    } else {
      assert b[0] == code;
    }
  }

  lemma ShortIsRead(which: nat)
    requires which < 8
    ensures LETTERS[which] != 117 && ShortEscape(LETTERS[which]) == Some(MEANT[which])
  {
    match which
    case 0 => case 1 => case 2 => case 3 => case 4 => case 5 => case 6 => case _ =>
  }

  lemma ShortIsListed(letter: byte) returns (which: nat)
    requires ShortEscape(letter).Some?
    ensures which < 8 && LETTERS[which] == letter
  {
    which :=
      if letter == 34 then 0 else if letter == 92 then 1 else if letter == 47 then 2 else if letter == 98 then 3
      else if letter == 102 then 4 else if letter == 110 then 5 else if letter == 114 then 6 else 7;
  }

  /** A spelt character at the front of a text is one unit, and its value means that character. */
  lemma CharIsUnit(c: Char, t: seq<byte>)
    requires IsChar(c) && Spelled(c) <= t
    ensures GoodUnit(t) && UnitLength(t) == |Spelled(c)| && Means(UnitValue(t), c)
  {
    hide Writes, ReadUtf8, CodeUnit, Utf8, ShortEscape, IsHex;
    match c
    case Plain(_) =>
    case Short(which) =>
      ShortIsRead(which);
      assert t[1] == LETTERS[which];
    case Hex(code, digits) =>
      CodeIsRead(digits, code);
      assert forall k :: 0 <= k < 4 ==> t[k + 2] == Spelled(c)[k + 2] == digits[k];
      assert t[2] == digits[0] && t[3] == digits[1] && t[4] == digits[2] && t[5] == digits[3];
      Utf8IsRead(code, []);
      assert Utf8(code) + [] == Utf8(code);
  }

  /** Every text made of spelt characters is accepted and decodes to bytes that read as those characters. */
  lemma {:induction false} TextIsMeant(cs: seq<Char>)
    requires AreChars(cs)
    ensures GoodText(AllSpelled(cs)) && ReadsAs(Decoded(AllSpelled(cs)), cs)
    decreases |cs|
  {
    hide IsChar, Spelled, ReadsAs, Means, GoodUnit, UnitLength, UnitValue;
    if cs == [] {
      NothingReads();
    } else {
      var t, rest := AllSpelled(cs), AllSpelled(cs[1..]);
      TextIsMeant(cs[1..]);
      CharIsUnit(cs[0], t);
      assert t[|Spelled(cs[0])|..] == rest;
      MeansThenReads(UnitValue(t), Decoded(rest), cs);
    }
  }

  lemma DecodedIsMeant(t: seq<byte>, done: seq<byte>)
    requires GoodText(t) && done == Decoded(t)
    ensures forall cs :: AreChars(cs) && AllSpelled(cs) == t ==> ReadsAs(done, cs)
  {
    hide *;
    forall cs | AreChars(cs) && AllSpelled(cs) == t
      ensures ReadsAs(done, cs)
    {
      TextIsMeant(cs);
    }
  }

  lemma NothingReads()
    ensures ReadsAs([], [])
  {
  }

  /** And every accepted text is made of spelt characters. */
  lemma {:induction false} TextHasChars(t: seq<byte>) returns (cs: seq<Char>)
    requires GoodText(t)
    ensures AreChars(cs) && AllSpelled(cs) == t
    decreases |t|
  {
    hide IsChar, Spelled, GoodUnit, UnitLength;
    cs := [];
    if t != [] {
      var c := UnitIsChar(t);
      var rest := TextHasChars(t[UnitLength(t)..]);
      cs := [c] + rest;
      assert cs[1..] == rest && t == t[..UnitLength(t)] + t[UnitLength(t)..];
    }
  }

  lemma UnitIsChar(t: seq<byte>) returns (c: Char)
    requires GoodUnit(t)
    ensures IsChar(c) && Spelled(c) == t[..UnitLength(t)]
  {
    hide Writes, CodeUnit, ShortEscape, IsHex;
    if t[0] != BACKSLASH {
      c := Plain(t[0]);
    } else if t[1] == 117 {
      c := Hex(CodeUnit(t[2], t[3], t[4], t[5]), t[2..6]);
      CodeIsRead(t[2..6], CodeUnit(t[2], t[3], t[4], t[5]));
    } else {
      var which := ShortIsListed(t[1]);
      c := Short(which);
    }
  }

  /** The index of the quote that closes the literal whose text starts at `i`. */
  function ClosingQuote(t: seq<byte>, i: nat): (r: Option<nat>)
    requires Terminated(t) && i < |t|
    ensures r.Some? ==> i <= r.value < |t| - 1 && t[r.value] == QUOTE
    decreases |t| - i
  {
    if t[i] == QUOTE then Some(i)
    else if t[i] == NUL then None
    else if t[i] != BACKSLASH then ClosingQuote(t, i + 1)
    else if t[i + 1] == 117 then
      if IsHex(t[i + 2]) && IsHex(t[i + 3]) && IsHex(t[i + 4]) && IsHex(t[i + 5]) then ClosingQuote(t, i + 6)
      else None
    else if ShortEscape(t[i + 1]).Some? then ClosingQuote(t, i + 2)
    else None
  }

  /** What an accepted literal holds is made of whole units. */
  lemma {:induction false} ClosedTextIsGood(t: seq<byte>, i: nat)
    requires Terminated(t) && i < |t| && ClosingQuote(t, i).Some?
    ensures GoodText(t[i..ClosingQuote(t, i).value])
    decreases |t| - i
  {
    var close := ClosingQuote(t, i).value;
    if t[i] != QUOTE {
      var n := if t[i] != BACKSLASH then 1 else if t[i + 1] == 117 then 6 else 2;
      ClosedTextIsGood(t, i + n);
      assert t[i..close][n..] == t[i + n..close];
    }
  }

  /** The printed form of a string ends where its own closing quote stands, whatever follows. */
  lemma {:induction false} EscapedTextIsClosed(t: seq<byte>, i: nat, s: seq<byte>)
    requires Terminated(t) && i + |Escaped(s)| < |t|
    requires t[i..i + |Escaped(s)|] == Escaped(s) && t[i + |Escaped(s)|] == QUOTE
    ensures ClosingQuote(t, i) == Some(i + |Escaped(s)|)
    decreases |s|
  {
    hide EscapeByte, GoodUnit, UnitLength, UnitValue, ClosingQuote;
    if s == [] {
      QuoteCloses(t, i);
    } else {
      var u, rest := EscapeByte(s[0]), Escaped(s[1..]);
      EscapeByteIsUnit(s[0]);
      EscapeByteIsNoQuote(s[0]);
      TwoSlices(t, i, u, rest);
      EscapedTextIsClosed(t, i + |u|, s[1..]);
      UnitIsSkipped(t, i, u);
    }
  }

  /** Nothing in the text itself ends the scan early. */
  predicate StaysOpen(c: Char) {
    c.Plain? ==> c.b != QUOTE && c.b != NUL
  }

  lemma {:induction false} SpelledTextIsClosed(t: seq<byte>, i: nat, cs: seq<Char>)
    requires AreChars(cs) && forall k :: 0 <= k < |cs| ==> StaysOpen(cs[k])
    requires Terminated(t) && i + |AllSpelled(cs)| < |t|
    requires t[i..i + |AllSpelled(cs)|] == AllSpelled(cs) && t[i + |AllSpelled(cs)|] == QUOTE
    ensures ClosingQuote(t, i) == Some(i + |AllSpelled(cs)|)
    decreases |cs|
  {
    hide IsChar, Spelled, GoodUnit, UnitLength, UnitValue, ClosingQuote, StaysOpen, Means;
    if cs == [] {
      QuoteCloses(t, i);
    } else {
      var u, rest := Spelled(cs[0]), AllSpelled(cs[1..]);
      CharIsUnit(cs[0], u);
      SpelledIsNoQuote(cs[0]);
      TwoSlices(t, i, u, rest);
      SpelledTextIsClosed(t, i + |u|, cs[1..]);
      UnitIsSkipped(t, i, u);
    }
  }

  lemma SpelledIsNoQuote(c: Char)
    requires IsChar(c) && StaysOpen(c)
    ensures Spelled(c)[0] != QUOTE && Spelled(c)[0] != NUL
  {
  }

  lemma QuoteCloses(t: seq<byte>, i: nat)
    requires Terminated(t) && i < |t| && t[i] == QUOTE
    ensures ClosingQuote(t, i) == Some(i)
  {
  }

  lemma TwoSlices(t: seq<byte>, i: nat, u: seq<byte>, rest: seq<byte>)
    requires i + |u| + |rest| <= |t| && t[i..i + |u| + |rest|] == u + rest
    ensures forall k :: 0 <= k < |u| ==> t[i + k] == u[k]
    ensures t[i + |u|..i + |u| + |rest|] == rest
  {
    var all := t[i..i + |u| + |rest|];
    assert forall k :: 0 <= k < |u| ==> t[i + k] == all[k] == u[k];
    assert t[i + |u|..i + |u| + |rest|] == all[|u|..] == rest;
  }

  lemma EscapeByteIsNoQuote(c: byte)
    ensures EscapeByte(c)[0] != QUOTE && EscapeByte(c)[0] != NUL
  {
  }

  lemma UnitIsSkipped(t: seq<byte>, i: nat, u: seq<byte>)
    requires Terminated(t) && GoodUnit(u) && UnitLength(u) == |u| && u[0] != QUOTE && u[0] != NUL
    requires i + |u| < |t| && forall k :: 0 <= k < |u| ==> t[i + k] == u[k]
    ensures ClosingQuote(t, i) == ClosingQuote(t, i + |u|)
  {
    assert t[i] == t[i + 0] == u[0];
  }

  /**
   The in-place decoder of a string value. The literal occupies `buf[start..end]`; the byte in front of it, once
   its opening quote, says whether it holds escapes, and the byte at `end`, once its closing quote, is NUL.
   */
  method Unescape(buf: array<byte>, start: nat, end: nat) returns (newEnd: nat)
    requires 0 < start <= end < buf.Length && buf[end] == NUL
    requires buf[start - 1] != 0 ==> GoodText(buf[start..end]) && BACKSLASH in buf[start..end]
    modifies buf
    ensures start <= newEnd <= end && buf[start - 1] == 0 && buf[newEnd] == NUL
    ensures buf[..start - 1] == old(buf[..start - 1]) && buf[end..] == old(buf[end..])
    ensures old(buf[start - 1]) == 0 ==> newEnd == end && buf[..] == old(buf[..])
    ensures old(buf[start - 1]) != 0 ==> buf[start..newEnd] == Decoded(old(buf[start..end]))
    ensures old(buf[start - 1]) != 0 ==>
      forall cs :: AreChars(cs) && AllSpelled(cs) == old(buf[start..end]) ==> ReadsAs(buf[start..newEnd], cs)
  {
    hide GoodText, GoodUnit, UnitLength, UnitValue, Decoded, AreChars, AllSpelled, ReadsAs;
    newEnd := end;
    if buf[start - 1] != 0 {
      var head, tail := start, start;
      ghost var was := buf[..];
      ghost var done: seq<byte> := [];
      while head != end
        invariant start <= tail <= head <= end
        invariant GoodText(was[head..end]) && done + Decoded(was[head..end]) == Decoded(was[start..end])
        invariant tail == start + |done| && buf[..tail] == was[..start] + done
        invariant buf[head..] == was[head..]
        decreases end - head
      {
        SameSlice(buf[..], was, head, end);
        DecodedFrom(was, head, end, done);
        ghost var unit := UnitValue(was[head..end]);
        ghost var before, head0, tail0 := buf[..], head, tail;
        head, tail := UnescapeUnit(buf, head, tail, end);
        Extended(before, buf[..], was[..start] + done, tail0, unit, tail);
        SameTail(before, buf[..], was, head0, head);
        done := done + unit;
      }
      DecodedStep(was[end..end]);
      newEnd := tail;
      ghost var before := buf[..];
      buf[newEnd] := NUL;
      buf[start - 1] := 0;
      Sealed(was, before, buf[..], done, start, tail, end);
      assert done + [] == done;
      DecodedIsMeant(was[start..end], done);
    }
  }

  lemma SameSlice(b: seq<byte>, was: seq<byte>, head: nat, end: nat)
    requires head <= end <= |b| == |was| && b[head..] == was[head..]
    ensures b[head..end] == was[head..end]
  {
    assert b[head..end] == b[head..][..end - head];
    assert was[head..end] == was[head..][..end - head];
  }

  lemma SameTail(b: seq<byte>, c: seq<byte>, was: seq<byte>, head0: nat, head: nat)
    requires head0 <= head <= |b| == |was| == |c| && b[head0..] == was[head0..] && c[head..] == b[head..]
    ensures c[head..] == was[head..]
  {
    assert b[head..] == b[head0..][head - head0..];
    assert was[head..] == was[head0..][head - head0..];
  }

  lemma Extended(b: seq<byte>, c: seq<byte>, front: seq<byte>, tail0: nat, unit: seq<byte>, tail: nat)
    requires tail0 <= tail <= |b| == |c| && b[..tail0] == front == c[..tail0] && c[tail0..tail] == unit
    ensures c[..tail] == front + unit
  {
    assert c[..tail] == c[..tail0] + c[tail0..tail];
  }

  lemma DecodedFrom(was: seq<byte>, head: nat, end: nat, done: seq<byte>)
    requires head < end <= |was| && GoodText(was[head..end])
    ensures GoodUnit(was[head..end])
    ensures var next := head + UnitLength(was[head..end]);
      && GoodText(was[next..end])
      && done + Decoded(was[head..end]) == done + UnitValue(was[head..end]) + Decoded(was[next..end])
  {
    hide GoodUnit, UnitLength, UnitValue;
    var t := was[head..end];
    DecodedStep(t);
    var next := head + UnitLength(t);
    assert t[next - head..] == was[next..end];
  }

  lemma Sealed(
      was: seq<byte>, b: seq<byte>, c: seq<byte>, done: seq<byte>, start: nat, tail: nat, end: nat)
    requires 0 < start <= tail == start + |done| <= end < |was| == |b| && was[end] == NUL
    requires b[..tail] == was[..start] + done && b[end..] == was[end..]
    requires c == b[tail := NUL][start - 1 := 0]
    ensures c[..start - 1] == was[..start - 1] && c[end..] == was[end..] && c[start..tail] == done
  {
    assert b[..start] == b[..tail][..start] == was[..start];
    assert b[start..tail] == b[..tail][start..];
    assert forall k :: end <= k < |was| ==> b[k] == b[end..][k - end] == was[end..][k - end] == was[k];
  }

  lemma DecodedStep(t: seq<byte>)
    requires GoodText(t)
    ensures t == [] ==> Decoded(t) == []
    ensures t != [] ==>
      && GoodUnit(t) && GoodText(t[UnitLength(t)..])
      && Decoded(t) == UnitValue(t) + Decoded(t[UnitLength(t)..])
  {
  }

  /** One unit: read at `head`, its decoding written at `tail`; nothing from the new `head` on is touched. */
  method UnescapeUnit(buf: array<byte>, head0: nat, tail0: nat, end: nat) returns (head: nat, tail: nat)
    requires tail0 <= head0 < end <= buf.Length && GoodUnit(buf[head0..end])
    modifies buf
    ensures head == head0 + old(UnitLength(buf[head0..end]))
    ensures tail == tail0 + |old(UnitValue(buf[head0..end]))| && tail <= head
    ensures buf[tail0..tail] == old(UnitValue(buf[head0..end]))
    ensures forall c :: IsChar(c) && Spelled(c) <= old(buf[head0..end]) ==> Means(buf[tail0..tail], c)
    ensures buf[..tail0] == old(buf[..tail0]) && buf[head..] == old(buf[head..])
  {
    hide Utf8, CodeUnit, ShortEscape;
    head, tail := head0, tail0;
    ghost var was, unit := buf[..], buf[head0..end];
    assert forall k :: 0 <= k < |unit| ==> unit[k] == buf[head0 + k];
    if buf[head] == BACKSLASH {
      head := head + 1;
      if buf[head] == 117 {
        var code := CodeUnit(buf[head + 1], buf[head + 2], buf[head + 3], buf[head + 4]);
        tail := PutUtf8(buf, tail, code);
        head := head + 4;
        assert buf[tail0..tail] == UnitValue(unit);
      } else {
        var c := EscapedLetter(buf[head]);
        buf[tail] := c;
        tail := tail + 1;
        assert buf[tail0..tail] == [c] == UnitValue(unit);
      }
    } else {
      buf[tail] := buf[head];
      tail := tail + 1;
      assert buf[tail0..tail] == [unit[0]] == UnitValue(unit);
    }
    head := head + 1;
    hide UnitValue, UnitLength, GoodUnit, IsChar, Spelled, Means;
    forall c | IsChar(c) && Spelled(c) <= unit
      ensures Means(UnitValue(unit), c)
    {
      CharIsUnit(c, unit);
    }
    AroundKept(was, buf[..], tail0, head);
    assert buf[..tail0] == buf[..][..tail0] && buf[head..] == buf[..][head..];
  }

  lemma AroundKept(was: seq<byte>, now: seq<byte>, tail: nat, head: nat)
    requires |now| == |was| && tail <= head <= |was|
    requires forall k :: 0 <= k < tail || head <= k < |was| ==> now[k] == was[k]
    ensures now[..tail] == was[..tail] && now[head..] == was[head..]
  {
  }

  /** The cases of the switch on the letter after a backslash. */
  method EscapedLetter(letter: byte) returns (c: byte)
    requires ShortEscape(letter).Some?
    ensures Some(c) == ShortEscape(letter)
  {
    if letter == QUOTE {
      c := QUOTE;
    } else if letter == BACKSLASH {
      c := BACKSLASH;
    } else if letter == 47 {
      c := 47;
    } else if letter == 98 {
      c := 8;
    } else if letter == 102 {
      c := 12;
    } else if letter == 110 {
      c := LF;
    } else if letter == 114 {
      c := CR;
    } else {
      c := TAB;
    }
  }

  /** The one, two or three bytes of a code unit, written at `tail`. */
  method PutUtf8(buf: array<byte>, tail: nat, code: int) returns (newTail: nat)
    requires 0 <= code < 0x1_0000 && tail + 3 <= buf.Length
    modifies buf
    ensures newTail == tail + |Utf8(code)| && buf[tail..newTail] == Utf8(code)
    ensures forall k :: 0 <= k < tail || newTail <= k < buf.Length ==> buf[k] == old(buf[k])
  {
    newTail := tail;
    if code >= 0x800 {
      buf[newTail] := 0xE0 + code / 0x1000;
      buf[newTail + 1] := 0x80 + code / 0x40 % 0x40;
      buf[newTail + 2] := 0x80 + code % 0x40;
      newTail := newTail + 3;
    } else if code >= 0x80 {
      buf[newTail] := 0xC0 + code / 0x40;
      buf[newTail + 1] := 0x80 + code % 0x40;
      newTail := newTail + 2;
    } else {
      buf[newTail] := code;
      newTail := newTail + 1;
    }
  }
}
