/** Numbers in base 16, by the digits themselves. */
module HexDigits {
  import opened Bytes

  /** "0123456789abcdef" and "0123456789ABCDEF". */
  const LOWER: seq<byte> := [48, 49, 50, 51, 52, 53, 54, 55, 56, 57, 97, 98, 99, 100, 101, 102]
  const UPPER: seq<byte> := [48, 49, 50, 51, 52, 53, 54, 55, 56, 57, 65, 66, 67, 68, 69, 70]

  predicate Spells(c: byte, d: int) {
    0 <= d < 16 && (c == LOWER[d] || c == UPPER[d])
  }

  /** The text is that of the number, in either case, with or without leading zeros. */
  predicate Writes(text: seq<byte>, n: int) {
    && text != [] && n >= 0
    && if |text| == 1 then Spells(text[0], n)
       else Spells(text[|text| - 1], n % 16) && Writes(text[..|text| - 1], n / 16)
  }

  /** The shortest text, in lower case. */
  function Text(n: nat): (r: seq<byte>)
    ensures Writes(r, n)
  {
    if n < 16 then [LOWER[n]]
    else
      var front := Text(n / 16);
      assert (front + [LOWER[n % 16]])[..|front|] == front;
      front + [LOWER[n % 16]]
  }

  /** Where the digits lie among the characters. */
  lemma DigitCodes(d: int)
    requires 0 <= d < 16
    ensures LOWER[d] == (if d < 10 then 48 + d else 87 + d) && UPPER[d] == (if d < 10 then 48 + d else 55 + d)
  {
    match d
    case 0 => case 1 => case 2 => case 3 => case 4 => case 5 => case 6 => case 7 =>
    case 8 => case 9 => case 10 => case 11 => case 12 => case 13 => case 14 => case _ =>
  }

  lemma SpellsIs(c: byte, d: int)
    ensures Spells(c, d) <==>
            0 <= d < 16 && ((d < 10 && c == 48 + d) || (10 <= d && (c == 87 + d || c == 55 + d)))
  {
    if 0 <= d < 16 {
      DigitCodes(d);
    }
  }
}
