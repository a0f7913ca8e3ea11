/**
 The numbers the parser takes, part by part. They are those of section 6 of RFC 8259 with three differences: digits
 may be missing after the point and after the sign of an exponent, and a lone zero takes no exponent.
 */
module JsonNumberGrammar {
  import opened Bytes
  import opened HexDigits
  import opened Options
  import opened JsonNumbers
  import opened JsonValues

  datatype Exponent = Exponent(mark: byte, sign: Option<byte>, digits: seq<byte>)

  datatype Parts = Parts(minus: bool, whole: seq<byte>, point: Option<seq<byte>>, exponent: Option<Exponent>)

  /** One of "0123456789", by the table of digits. */
  predicate IsDec(c: byte) {
    c in LOWER[..10]
  }

  predicate AllDec(text: seq<byte>) {
    forall k :: 0 <= k < |text| ==> IsDec(text[k])
  }

  predicate GoodExponent(e: Exponent) {
    && (e.mark == 101 || e.mark == 69) && AllDec(e.digits)
    && (if e.sign.Some? then e.sign.value == 43 || e.sign.value == 45 else e.digits != [])
  }

  predicate GoodParts(p: Parts) {
    && p.whole != [] && AllDec(p.whole) && (p.whole[0] == 48 ==> |p.whole| == 1)
    && (p.point.Some? ==> AllDec(p.point.value))
    && (p.exponent.Some? ==> GoodExponent(p.exponent.value) && (p.point.None? ==> p.whole[0] != 48))
  }

  function ExponentText(e: Exponent): seq<byte> {
    [e.mark] + (if e.sign.Some? then [e.sign.value] else []) + e.digits
  }

  function ExponentOf(e: Option<Exponent>): seq<byte> {
    if e.Some? then ExponentText(e.value) else []
  }

  function PointOf(digits: Option<seq<byte>>): seq<byte> {
    if digits.Some? then [46] + digits.value else []
  }

  function PartsText(p: Parts): seq<byte> {
    (if p.minus then [45] else []) + (p.whole + (PointOf(p.point) + ExponentOf(p.exponent)))
  }

  /** A character that cannot continue a number: none of "0123456789.-+eE". */
  predicate Stops(c: byte) {
    !IsDec(c) && c !in [46, 45, 43, 101, 69]
  }

  lemma DecIsDigit(c: byte)
    ensures IsDec(c) <==> IsDigit(c)
    ensures Stops(c) <==> !InNumber(c)
  {
    if IsDigit(c) {
      DigitCodes(c as int - 48);
      assert LOWER[..10][c as int - 48] == c;
    }
    if IsDec(c) {
      var d :| 0 <= d < 10 && LOWER[d] == c;
      DigitCodes(d);
    }
  }

  // ----- What may follow in each state of the scanner, as a text -----

  predicate ExponentTail(text: seq<byte>) {
    || text == []
    || (|text| >= 2 && (text[0] == 101 || text[0] == 69)
        && if text[1] == 43 || text[1] == 45 then AllDec(text[2..]) else AllDec(text[1..]))
  }

  predicate PointTail(text: seq<byte>) {
    if text != [] && IsDec(text[0]) then PointTail(text[1..]) else ExponentTail(text)
  }

  predicate DigitsTail(text: seq<byte>) {
    if text != [] && IsDec(text[0]) then DigitsTail(text[1..])
    else if text != [] && text[0] == 46 then PointTail(text[1..])
    else ExponentTail(text)
  }

  predicate WholeTail(text: seq<byte>) {
    && text != [] && IsDec(text[0])
    && if text[0] == 48 then |text| == 1 || (text[1] == 46 && PointTail(text[2..])) else DigitsTail(text[1..])
  }

  predicate NumberTail(text: seq<byte>) {
    if text != [] && text[0] == 45 then WholeTail(text[1..]) else WholeTail(text)
  }

  predicate TailOf(state: NumberState, text: seq<byte>) {
    match state
    case Minus => NumberTail(text)
    case AfterMinus => WholeTail(text)
    case ZeroFirst => text == [] || (text[0] == 46 && PointTail(text[1..]))
    case InDigits => DigitsTail(text)
    case AfterPoint => PointTail(text)
    case E => text != [] && if text[0] == 43 || text[0] == 45 then AllDec(text[1..]) else AllDec(text)
    case AfterE => AllDec(text)
    case Invalid => false
  }

  /** One character of the tail, and the state after it. */
  lemma TailNext(state: NumberState, c: byte, rest: seq<byte>)
    ensures TailOf(state, [c] + rest) <==> InNumber(c) && TailOf(NextState(state, c), rest)
  {
    var text := [c] + rest;
    assert text[1..] == rest && (rest != [] ==> text[2..] == rest[1..]);
    DecIsDigit(c);
    AllDecCons(c, rest);
    if rest != [] {
      AllDecCons(rest[0], rest[1..]);
      assert rest == [rest[0]] + rest[1..];
      DecIsDigit(rest[0]);
    }
  }

  lemma AllDecCons(c: byte, rest: seq<byte>)
    ensures AllDec([c] + rest) <==> IsDec(c) && AllDec(rest)
  {
    var text := [c] + rest;
    if AllDec(text) {
      assert text[0] == c;
      forall k | 0 <= k < |rest|
        ensures IsDec(rest[k])
      {
        assert text[k + 1] == rest[k];
      }
    }
  }

  lemma TailEnds(state: NumberState)
    ensures TailOf(state, []) <==> Accepting(state)
  {
  }

  /** The scanner stops at `e` exactly when the text up to there is a tail for its state and no number character follows. */
  lemma {:induction false} ScanIsTail(t: seq<byte>, i: nat, state: NumberState, e: nat)
    requires Terminated(t) && i < |t|
    ensures NumberEnd(t, i, state) == Some(e) <==> i <= e < |t| && Stops(t[e]) && TailOf(state, t[i..e])
    decreases |t| - i
  {
    hide NextState, TailOf, Stops, InNumber, Accepting;
    DecIsDigit(t[i]);
    TailEnds(state);
    InvalidHasNoTail(t[i..if i <= e < |t| then e else i]);
    NulIsNoNumber();
    if i < e < |t| {
      assert t[i..e] == [t[i]] + t[i + 1..e];
      TailNext(state, t[i], t[i + 1..e]);
    }
    if InNumber(t[i]) {
      ScanIsTail(t, i + 1, NextState(state, t[i]), e);
    }
  }

  lemma InvalidHasNoTail(text: seq<byte>)
    ensures !TailOf(Invalid, text) && !Accepting(Invalid)
  {
  }

  lemma NulIsNoNumber()
    ensures !InNumber(NUL)
  {
  }

  // ----- The tails are what the parts spell -----

  lemma {:induction false} AllDecConcat(a: seq<byte>, b: seq<byte>)
    ensures AllDec(a + b) <==> AllDec(a) && AllDec(b)
  {
    if AllDec(a + b) {
      forall k | 0 <= k < |a|
        ensures IsDec(a[k])
      {
        assert (a + b)[k] == a[k];
      }
      forall k | 0 <= k < |b|
        ensures IsDec(b[k])
      {
        assert (a + b)[|a| + k] == b[k];
      }
    }
  }

  lemma TailExponent(text: seq<byte>) returns (e: Option<Exponent>)
    requires ExponentTail(text)
    ensures ExponentOf(e) == text && (e.Some? ==> GoodExponent(e.value))
  {
    hide IsDec;
    if text == [] {
      e := None;
    } else if text[1] == 43 || text[1] == 45 {
      e := Some(Exponent(text[0], Some(text[1]), text[2..]));
      assert text == [text[0]] + [text[1]] + text[2..];
    } else {
      e := Some(Exponent(text[0], None, text[1..]));
      assert text == [text[0]] + [] + text[1..];
    }
  }

  lemma ExponentHasTail(e: Option<Exponent>)
    requires e.Some? ==> GoodExponent(e.value)
    ensures ExponentTail(ExponentOf(e)) && (ExponentOf(e) != [] ==> !IsDec(ExponentOf(e)[0]) && ExponentOf(e)[0] != 46)
  {
    DecIsDigit(101);
    DecIsDigit(69);
    hide IsDec;
    if e.Some? {
      var text, x := ExponentText(e.value), e.value;
      if x.sign.Some? {
        assert text[2..] == x.digits;
      } else {
        assert text[1..] == x.digits;
        assert IsDec(x.digits[0]);
        DecIsDigit(43);
        DecIsDigit(45);
      }
    }
  }

  lemma {:induction false} TailPoint(text: seq<byte>) returns (digits: seq<byte>, e: Option<Exponent>)
    requires PointTail(text)
    ensures text == digits + ExponentOf(e) && AllDec(digits) && (e.Some? ==> GoodExponent(e.value))
  {
    hide IsDec, ExponentTail, ExponentOf, GoodExponent;
    if text != [] && IsDec(text[0]) {
      digits, e := TailPoint(text[1..]);
      AllDecCons(text[0], digits);
      digits := [text[0]] + digits;
    } else {
      digits := [];
      e := TailExponent(text);
    }
  }

  lemma {:induction false} PointHasTail(digits: seq<byte>, e: Option<Exponent>)
    requires AllDec(digits) && (e.Some? ==> GoodExponent(e.value))
    ensures PointTail(digits + ExponentOf(e))
    decreases |digits|
  {
    hide IsDec, ExponentTail, ExponentOf, GoodExponent;
    ExponentHasTail(e);
    if digits == [] {
      assert digits + ExponentOf(e) == ExponentOf(e);
    } else {
      PointHasTail(digits[1..], e);
      assert (digits + ExponentOf(e))[1..] == digits[1..] + ExponentOf(e);
    }
  }

  lemma {:induction false} TailDigits(text: seq<byte>)
    returns (digits: seq<byte>, point: Option<seq<byte>>, e: Option<Exponent>)
    requires DigitsTail(text)
    ensures text == digits + (PointOf(point) + ExponentOf(e)) && AllDec(digits)
    ensures (point.Some? ==> AllDec(point.value)) && (e.Some? ==> GoodExponent(e.value))
  {
    hide IsDec, ExponentTail, PointTail, ExponentOf, GoodExponent;
    if text != [] && IsDec(text[0]) {
      digits, point, e := TailDigits(text[1..]);
      AllDecCons(text[0], digits);
      var rest := PointOf(point) + ExponentOf(e);
      assert text == [text[0]] + text[1..];
      assert [text[0]] + (digits + rest) == [text[0]] + digits + rest;
      digits := [text[0]] + digits;
    } else if text != [] && text[0] == 46 {
      var after;
      after, e := TailPoint(text[1..]);
      digits, point := [], Some(after);
      assert text == [46] + text[1..];
    } else {
      e := TailExponent(text);
      digits, point := [], None;
    }
  }

  lemma {:induction false} DigitsHaveTail(digits: seq<byte>, rest: seq<byte>)
    requires AllDec(digits) && DigitsTail(rest)
    ensures DigitsTail(digits + rest)
    decreases |digits|
  {
    hide IsDec, ExponentTail, PointTail;
    if digits == [] {
      assert digits + rest == rest;
    } else {
      DigitsHaveTail(digits[1..], rest);
      assert (digits + rest)[1..] == digits[1..] + rest;
    }
  }

  lemma RestHasTail(point: Option<seq<byte>>, e: Option<Exponent>)
    requires (point.Some? ==> AllDec(point.value)) && (e.Some? ==> GoodExponent(e.value))
    ensures DigitsTail(PointOf(point) + ExponentOf(e))
  {
    hide IsDec, ExponentTail, PointTail, ExponentOf, GoodExponent;
    var rest := PointOf(point) + ExponentOf(e);
    ExponentHasTail(e);
    DecIsDigit(46);
    if point.Some? {
      PointHasTail(point.value, e);
      assert rest[1..] == point.value + ExponentOf(e);
    } else {
      assert rest == ExponentOf(e);
    }
  }

  lemma TailWhole(text: seq<byte>) returns (p: Parts)
    requires WholeTail(text)
    ensures GoodParts(p) && !p.minus && PartsText(p) == text
  {
    hide IsDec, DigitsTail, PointTail, ExponentTail, ExponentOf, GoodExponent;
    AllDecCons(text[0], []);
    assert text == [text[0]] + text[1..];
    if text[0] != 48 {
      var digits, point, e := TailDigits(text[1..]);
      AllDecCons(text[0], digits);
      p := Parts(false, [text[0]] + digits, point, e);
      assert [text[0]] + (digits + (PointOf(point) + ExponentOf(e))) == p.whole + (PointOf(point) + ExponentOf(e));
    } else if |text| == 1 {
      p := Parts(false, [48], None, None);
      NoExponent();
    } else {
      var digits, e := TailPoint(text[2..]);
      p := Parts(false, [48], Some(digits), e);
      assert text == [48] + ([46] + text[2..]);
      assert [46] + (digits + ExponentOf(e)) == PointOf(p.point) + ExponentOf(e);
    }
  }

  lemma NoExponent()
    ensures ExponentOf(None) == []
  {
  }

  lemma WholeHasTail(p: Parts)
    requires GoodParts(p)
    ensures WholeTail(p.whole + (PointOf(p.point) + ExponentOf(p.exponent)))
  {
    hide IsDec, DigitsTail, PointTail, ExponentTail, ExponentOf, GoodExponent;
    var rest := PointOf(p.point) + ExponentOf(p.exponent);
    var text := p.whole + rest;
    assert text[0] == p.whole[0];
    if p.whole[0] == 48 {
      if p.point.Some? {
        PointHasTail(p.point.value, p.exponent);
        assert text[2..] == p.point.value + ExponentOf(p.exponent);
      } else {
        NoExponent();
      }
    } else {
      AllDecCons(p.whole[0], p.whole[1..]);
      assert p.whole == [p.whole[0]] + p.whole[1..];
      RestHasTail(p.point, p.exponent);
      DigitsHaveTail(p.whole[1..], rest);
      assert text[1..] == p.whole[1..] + rest;
    }
  }

  lemma PartsHaveTail(p: Parts)
    requires GoodParts(p)
    ensures NumberTail(PartsText(p))
  {
    hide WholeTail, PointOf, ExponentOf, GoodExponent;
    WholeHasTail(p);
    DecIsDigit(45);
    assert IsDec(p.whole[0]);
    var text := p.whole + (PointOf(p.point) + ExponentOf(p.exponent));
    assert text[0] == p.whole[0];
    if p.minus {
      assert PartsText(p)[1..] == text;
    } else {
      assert PartsText(p) == text;
    }
  }

  lemma Signed(p: Parts)
    requires GoodParts(p) && !p.minus
    ensures GoodParts(p.(minus := true)) && PartsText(p.(minus := true)) == [45] + PartsText(p)
  {
    hide AllDec, GoodExponent, PointOf, ExponentOf;
    var text := p.whole + (PointOf(p.point) + ExponentOf(p.exponent));
    assert [] + text == text;
  }

  lemma TailParts(text: seq<byte>) returns (p: Parts)
    requires NumberTail(text)
    ensures GoodParts(p) && PartsText(p) == text
  {
    assert text != [];
    hide WholeTail, GoodParts, PartsText;
    if text[0] == 45 {
      p := TailWhole(text[1..]);
      Signed(p);
      p := p.(minus := true);
      assert text == [45] + text[1..];
    } else {
      p := TailWhole(text);
    }
  }

  /** The scanner takes exactly the numbers of the grammar, each up to a character that cannot continue it. */
  lemma NumberIsScanned(t: seq<byte>, i: nat, e: nat)
    requires Terminated(t) && i < |t|
    ensures NumberEnd(t, i, Minus) == Some(e) <==>
            i < e < |t| && Stops(t[e]) && exists p :: GoodParts(p) && PartsText(p) == t[i..e]
  {
    hide NumberEnd, Stops, GoodParts, PartsText, NumberTail;
    ScanIsTail(t, i, Minus, e);
    if i <= e < |t| {
      if NumberTail(t[i..e]) {
        var p := TailParts(t[i..e]);
        PartsAreSome(p);
      }
      forall p | GoodParts(p) && PartsText(p) == t[i..e]
        ensures NumberTail(t[i..e])
      {
        PartsHaveTail(p);
      }
    }
  }

  lemma PartsAreSome(p: Parts)
    requires GoodParts(p)
    ensures PartsText(p) != [] && (PartsText(p)[0] == 45 || IsDec(PartsText(p)[0]))
  {
  }

  // ----- What a number means -----

  /** The text is that of the number in base 10, by the table of digits. */
  predicate DecimalText(text: seq<byte>, n: int) {
    && text != [] && n >= 0
    && if |text| == 1 then n < 10 && text[0] == LOWER[n]
       else text[|text| - 1] == LOWER[n % 10] && DecimalText(text[..|text| - 1], n / 10)
  }

  lemma {:induction false} DecimalIsRead(text: seq<byte>, n: int)
    requires AllDec(text) && text != []
    ensures DecimalText(text, n) <==> NatOf(text) == n
    ensures NatOf(text) >= 0
  {
    var front, last := text[..|text| - 1], text[|text| - 1];
    DecIsDigit(last);
    if front != [] {
      assert forall k :: 0 <= k < |front| ==> front[k] == text[k];
      DecimalIsRead(front, n / 10);
    }
    if n >= 0 {
      DigitCodes(n % 10);
    }
  }

  /** Without point and exponent the number is the integer its digits spell, signed; otherwise its text is kept. */
  lemma NumberMeans(p: Parts, n: int)
    requires GoodParts(p)
    ensures p.point.None? && p.exponent.None? ==>
      (NumberValue(PartsText(p)) == Number(n) <==> DecimalText(p.whole, if p.minus then -n else n))
    ensures !(p.point.None? && p.exponent.None?) ==> NumberValue(PartsText(p)) == Decimal(PartsText(p))
  {
    hide AllDec, NatOf, DecimalText;
    if p.point.None? && p.exponent.None? {
      WholeIsInteger(p.whole);
      SignedIsInteger(p.whole);
      DecimalIsRead(p.whole, if p.minus then -n else n);
      assert PartsText(p) == if p.minus then [45] + p.whole else p.whole;
    } else {
      FractionIsNoInteger(p);
      PartsAreSome(p);
    }
  }

  lemma WholeIsInteger(whole: seq<byte>)
    requires whole != [] && AllDec(whole)
    ensures IsInteger(whole) && whole[0] != 45
  {
    hide IsDec;
    forall k | 0 <= k < |whole|
      ensures IsDigit(whole[k])
    {
      DecIsDigit(whole[k]);
    }
  }

  lemma SignedIsInteger(whole: seq<byte>)
    requires IsInteger(whole)
    ensures IsInteger([45] + whole) && ([45] + whole)[1..] == whole
  {
  }

  lemma FractionIsNoInteger(p: Parts)
    requires GoodParts(p) && !(p.point.None? && p.exponent.None?)
    ensures !IsInteger(PartsText(p))
  {
    hide AllDec;
    var head, point, exponent := (if p.minus then [45] else []) + p.whole, PointOf(p.point), ExponentOf(p.exponent);
    assert PartsText(p) == head + (point + exponent);
    if p.point.Some? {
      assert PartsText(p)[|head|] == 46;
    } else {
      assert PartsText(p)[|head|] == p.exponent.value.mark;
    }
  }
}
