/** An optional value: a nullable column, a missing row, a rejected input. */
module Options {
  datatype Option<+T> = None | Some(value: T) {
    function GetOr(default: T): T {
      if Some? then value else default
    }
  }
}

/** The letters and digits in their order, and where they lie among the characters. */
module Alphabets {
  const UPPER_A := "ABCDEFGHIJKLM"
  const UPPER_N := "NOPQRSTUVWXYZ"
  const LOWER_A := "abcdefghijklm"
  const LOWER_N := "nopqrstuvwxyz"
  const DIGITS := "0123456789"

  lemma UpperIs(i: nat)
    requires i < 13
    ensures UPPER_A[i] as int == 65 + i && UPPER_N[i] as int == 78 + i
  {
    match i
    case 0 => case 1 => case 2 => case 3 => case 4 => case 5 => case 6 => case 7 => case 8 => case 9 => case 10 =>
    case 11 => case _ =>
  }

  lemma LowerIs(i: nat)
    requires i < 13
    ensures LOWER_A[i] as int == 97 + i && LOWER_N[i] as int == 110 + i
  {
    match i
    case 0 => case 1 => case 2 => case 3 => case 4 => case 5 => case 6 => case 7 => case 8 => case 9 => case 10 =>
    case 11 => case _ =>
  }

  lemma DigitIs(d: nat)
    requires d < 10
    ensures DIGITS[d] as int == 48 + d
  {
    match d
    case 0 => case 1 => case 2 => case 3 => case 4 => case 5 => case 6 => case 7 => case 8 => case _ =>
  }
}

/**
 The functions of Go's `strings` package that the repository's string handling rests on.
 A string is a sequence of Unicode code points.
 */
module GoStrings {
  import opened Alphabets

  /** `unicode.IsSpace`. */
  predicate IsSpace(c: char) {
    || '\t' <= c <= '\r' || c == ' ' || c == '\U{85}' || c == '\U{A0}' || c == '\U{1680}'
    || '\U{2000}' <= c <= '\U{200A}' || c == '\U{2028}' || c == '\U{2029}' || c == '\U{202F}'
    || c == '\U{205F}' || c == '\U{3000}'
  }

  function TrimLeft(s: string): (r: string)
    ensures r == "" || !IsSpace(r[0])
    ensures |r| <= |s| && r == s[|s| - |r|..]
  {
    if s == "" then ""
    else if IsSpace(s[0]) then TrimLeft(s[1..])
    else s
  }

  function TrimRight(s: string): (r: string)
    ensures r == "" || !IsSpace(r[|r| - 1])
    ensures r <= s
  {
    if s == "" then ""
    else if IsSpace(s[|s| - 1]) then TrimRight(s[..|s| - 1])
    else s
  }

  /** `strings.TrimSpace`. */
  function TrimSpace(s: string): (r: string)
    ensures Trimmed(r)
  {
    TrimRight(TrimLeft(s))
  }

  /** No white space at either end. */
  predicate Trimmed(s: string) {
    s == "" || (!IsSpace(s[0]) && !IsSpace(s[|s| - 1]))
  }

  lemma TrimSpaceKeepsTrimmed(s: string)
    requires Trimmed(s)
    ensures TrimSpace(s) == s
  {
  }

  predicate AllSpace(s: string) {
    forall k :: 0 <= k < |s| ==> IsSpace(s[k])
  }

  lemma {:induction false} LeftIsSpace(s: string)
    ensures AllSpace(s[..|s| - |TrimLeft(s)|])
  {
    hide IsSpace;
    if s != "" && IsSpace(s[0]) {
      LeftIsSpace(s[1..]);
      var n := |s| - 1 - |TrimLeft(s[1..])|;
      hide TrimLeft;
      assert s[..n + 1] == [s[0]] + s[1..][..n];
    } else {
      assert s[..0] == "";
    }
  }

  lemma {:induction false} RightIsSpace(s: string)
    ensures AllSpace(s[|TrimRight(s)|..])
  {
    hide IsSpace;
    if s != "" && IsSpace(s[|s| - 1]) {
      RightIsSpace(s[..|s| - 1]);
      assert s[|TrimRight(s)|..] == s[..|s| - 1][|TrimRight(s)|..] + [s[|s| - 1]];
    }
  }

  /** `TrimSpace` takes away white space at both ends, and only that. */
  lemma TrimSpaceTakesSpace(s: string) returns (left: string, right: string)
    ensures s == left + TrimSpace(s) + right && AllSpace(left) && AllSpace(right)
  {
    hide AllSpace, TrimLeft, TrimRight;
    var t := TrimLeft(s);
    var r := TrimRight(t);
    LeftIsSpace(s);
    RightIsSpace(t);
    left, right := s[..|s| - |t|], t[|r|..];
    Rejoined(s, |s| - |t|);
    Rejoined(t, |r|);
    assert left + (r + right) == left + r + right;
  }

  lemma Rejoined(s: string, n: nat)
    requires n <= |s|
    ensures s == s[..n] + s[n..]
  {
  }

  /** What is between white space is what is left: no other trimmed text fits. */
  lemma TrimSpaceOfPadded(left: string, s: string, right: string)
    requires AllSpace(left) && AllSpace(right) && Trimmed(s)
    ensures TrimSpace(left + s + right) == s
  {
    hide IsSpace, AllSpace, TrimRight, TrimLeft;
    LeftOfPadded(left, s + right);
    assert left + s + right == left + (s + right);
    EmptyTrims();
    if s == "" {
      LeftOfPadded(right, "");
      assert s + right == right + "";
    } else {
      assert (s + right)[0] == s[0];
      LeftOfTrimmed(s + right);
      RightOfPadded(s, right);
      RightOfTrimmed(s);
    }
  }

  lemma EmptyTrims()
    ensures TrimLeft("") == "" && TrimRight("") == ""
  {
  }

  lemma LeftOfTrimmed(s: string)
    requires s != "" && !IsSpace(s[0])
    ensures TrimLeft(s) == s
  {
  }

  lemma RightOfTrimmed(s: string)
    requires s != "" && !IsSpace(s[|s| - 1])
    ensures TrimRight(s) == s
  {
  }

  lemma {:induction false} LeftOfPadded(left: string, s: string)
    requires AllSpace(left)
    ensures TrimLeft(left + s) == TrimLeft(s)
  {
    hide IsSpace;
    if left == "" {
      assert left + s == s;
    } else {
      assert (left + s)[1..] == left[1..] + s;
      LeftOfPadded(left[1..], s);
    }
  }

  lemma {:induction false} RightOfPadded(s: string, right: string)
    requires AllSpace(right)
    ensures TrimRight(s + right) == TrimRight(s)
    decreases |right|
  {
    hide IsSpace;
    if right == "" {
      assert s + right == s;
    } else {
      assert (s + right)[..|s + right| - 1] == s + right[..|right| - 1];
      RightOfPadded(s, right[..|right| - 1]);
    }
  }

  /** The characters of Unicode's White_Space property, by code point. */
  lemma SpacesAre(c: char)
    ensures IsSpace(c) <==>
            c as int in {9, 10, 11, 12, 13, 0x20, 0x85, 0xA0, 0x1680,
                         0x2000, 0x2001, 0x2002, 0x2003, 0x2004, 0x2005, 0x2006, 0x2007, 0x2008, 0x2009, 0x200A,
                         0x2028, 0x2029, 0x202F, 0x205F, 0x3000}
  {
  }

  /**
   `unicode.ToLower` as far as it can produce an ASCII letter: the ASCII capitals, the dotted
   capital I and the Kelvin sign. Every other character is kept, so comparing a lowered string
   with an ASCII constant comes out as in Go.
   */
  function ToLowerChar(c: char): char {
    if 'A' <= c <= 'Z' then (c as int + 32) as char
    else if c == '\U{130}' then 'i'
    else if c == '\U{212A}' then 'k'
    else c
  }

  /** Each capital becomes the small letter at the same place of the alphabet, and other ASCII characters stay. */
  lemma CapitalsAreLowered(i: nat, c: char)
    requires i < 13
    ensures ToLowerChar(UPPER_A[i]) == LOWER_A[i] && ToLowerChar(UPPER_N[i]) == LOWER_N[i]
    ensures c as int < 128 && c !in UPPER_A && c !in UPPER_N ==> ToLowerChar(c) == c
  {
    UpperIs(i);
    LowerIs(i);
    if 'A' <= c <= 'M' {
      UpperIs(c as int - 65);
      assert UPPER_A[c as int - 65] == c;
    } else if 'N' <= c <= 'Z' {
      UpperIs(c as int - 78);
      assert UPPER_N[c as int - 78] == c;
    }
  }

  function ToLower(s: string): (r: string)
    ensures |r| == |s|
    ensures forall i :: 0 <= i < |s| ==> r[i] == ToLowerChar(s[i])
  {
    seq(|s|, i requires 0 <= i < |s| => ToLowerChar(s[i]))
  }

  /** Trimming and lowering, as the reject classifiers read a column. */
  function Normalise(s: string): string {
    ToLower(TrimSpace(s))
  }

  lemma SmallLetterIsNotSpace(c: char)
    requires 'a' <= c <= 'z'
    ensures !IsSpace(c)
  {
  }

  lemma CapitalIsNotSpace(c: char)
    requires 'A' <= c <= 'Z'
    ensures !IsSpace(c)
  {
  }

  lemma ToLowerKeepsWord(s: string)
    requires forall i :: 0 <= i < |s| ==> 'a' <= s[i] <= 'z'
    ensures ToLower(s) == s
  {
    hide ToLower;
  }

  /** A word of small ASCII letters is its own normal form. */
  lemma NormaliseKeepsWord(s: string)
    requires forall i :: 0 <= i < |s| ==> 'a' <= s[i] <= 'z'
    ensures Normalise(s) == s
  {
    hide TrimSpace, ToLower, IsSpace;
    if s != "" {
      SmallLetterIsNotSpace(s[0]);
      SmallLetterIsNotSpace(s[|s| - 1]);
    }
    TrimSpaceKeepsTrimmed(s);
    ToLowerKeepsWord(s);
  }

  predicate HasPrefix(s: string, p: string) {
    p <= s
  }

  /** `strings.TrimPrefix`. */
  function TrimPrefix(s: string, p: string): string {
    if p <= s then s[|p|..] else s
  }
}
