/** Integers as the printer writes them and the number scanner of the parser. */
module JsonNumbers {
  import opened Bytes
  import opened Options

  /** Decimal digits of a natural number, without leading zeros. */
  function Digits(n: nat): (r: seq<byte>)
    ensures r != []
  {
    if n < 10 then [48 + n] else Digits(n / 10) + [48 + n % 10]
  }

  function IntText(n: int): (r: seq<byte>)
    ensures r != []
  {
    if n < 0 then [45] + Digits(-n) else Digits(n)
  }

  predicate IsDigit(c: byte) {
    48 <= c <= 57
  }

  function NatOf(text: seq<byte>): int {
    if text == [] then 0 else NatOf(text[..|text| - 1]) * 10 + text[|text| - 1] as int - 48
  }

  function IntOf(text: seq<byte>): int
    requires text != []
  {
    if text[0] == 45 then -NatOf(text[1..]) else NatOf(text)
  }

  /** A number with a point or an exponent is read as floating point. */
  predicate IsInteger(text: seq<byte>) {
    46 !in text && 101 !in text && 69 !in text
  }

  datatype NumberState = Minus | AfterMinus | ZeroFirst | InDigits | AfterPoint | E | AfterE | Invalid

  /** The scanner's tables, one entry a state and kind of character. */
  function NextState(state: NumberState, c: byte): NumberState {
    if c == 48 then
      match state
      case Minus | AfterMinus => ZeroFirst
      case InDigits => InDigits
      case AfterPoint => AfterPoint
      case E | AfterE => AfterE
      case ZeroFirst | Invalid => Invalid
    else if 49 <= c <= 57 then
      match state
      case Minus | AfterMinus | InDigits => InDigits
      case AfterPoint => AfterPoint
      case E | AfterE => AfterE
      case ZeroFirst | Invalid => Invalid
    else if c == 46 then
      if state.ZeroFirst? || state.InDigits? then AfterPoint else Invalid
    else if c == 45 then
      if state.Minus? then AfterMinus else if state.E? then AfterE else Invalid
    else if c == 43 then
      if state.E? then AfterE else Invalid
    else if c == 101 || c == 69 then
      if state.InDigits? || state.AfterPoint? then E else Invalid
    else Invalid
  }

  predicate InNumber(c: byte) {
    IsDigit(c) || c == 46 || c == 45 || c == 43 || c == 101 || c == 69
  }

  predicate Accepting(state: NumberState) {
    state.ZeroFirst? || state.InDigits? || state.AfterPoint? || state.AfterE?
  }

  /** Where the number that started before `i` ends, given the scanner's state; none when it is malformed. */
  function NumberEnd(t: seq<byte>, i: nat, state: NumberState): (r: Option<nat>)
    requires Terminated(t) && i < |t|
    ensures r.Some? ==> i <= r.value < |t|
    ensures r.Some? && !Accepting(state) ==> i < r.value
    decreases |t| - i
  {
    if state.Invalid? then None
    else if InNumber(t[i]) then NumberEnd(t, i + 1, NextState(state, t[i]))
    else if Accepting(state) then Some(i)
    else None
  }

  /** A run of digits does not leave a state that digits lead to: the inner loop of the scanner may skip it. */
  lemma {:induction false} DigitsAreSkipped(t: seq<byte>, i: nat, j: nat, state: NumberState)
    requires Terminated(t) && i <= j < |t|
    requires forall k :: i <= k < j ==> IsDigit(t[k])
    requires state.InDigits? || state.AfterPoint? || state.AfterE? || state.Invalid?
    ensures NumberEnd(t, i, state) == NumberEnd(t, j, state)
    decreases j - i
  {
    if i < j && !state.Invalid? {
      DigitsAreSkipped(t, i + 1, j, state);
    }
  }

  lemma {:induction false} DigitsRoundTrip(n: nat)
    ensures NatOf(Digits(n)) == n
    ensures forall c :: c in Digits(n) ==> IsDigit(c)
    ensures Digits(n)[0] == 48 ==> n == 0 && |Digits(n)| == 1
  {
    if n >= 10 {
      DigitsRoundTrip(n / 10);
      assert Digits(n)[..|Digits(n)| - 1] == Digits(n / 10);
      assert Digits(n)[0] == Digits(n / 10)[0];
    } else {
      assert Digits(n)[..0] == [];
    }
  }

  /** `to_string` and the scanner with its later conversion undo each other on every integer. */
  lemma IntRoundTrip(n: int)
    ensures IsInteger(IntText(n)) && IntOf(IntText(n)) == n
    ensures forall c :: c in IntText(n) ==> IsDigit(c) || c == 45
  {
    DigitsRoundTrip(if n < 0 then -n else n);
    if n < 0 {
      assert IntText(n)[1..] == Digits(-n);
    } else {
      assert Digits(n)[0] in Digits(n);
    }
  }

  lemma ScanDigits(t: seq<byte>, i: nat, n: nat, state: NumberState)
    requires Terminated(t) && i + |Digits(n)| < |t| && t[i..i + |Digits(n)|] == Digits(n)
    requires !InNumber(t[i + |Digits(n)|]) && (state.Minus? || state.AfterMinus?)
    ensures NumberEnd(t, i, state) == Some(i + |Digits(n)|)
  {
    hide Digits, NumberEnd, NextState;
    DigitsRoundTrip(n);
    var d := Digits(n);
    forall k | i <= k < i + |d|
      ensures IsDigit(t[k])
    {
      assert t[k] == t[i..i + |d|][k - i] && d[k - i] in d;
    }
    assert t[i] == t[i..i + |d|][0];
    ScanRun(t, i, i + |d|, state);
  }

  lemma ScanRun(t: seq<byte>, i: nat, j: nat, state: NumberState)
    requires Terminated(t) && i < j < |t| && !InNumber(t[j]) && (state.Minus? || state.AfterMinus?)
    requires forall k :: i <= k < j ==> IsDigit(t[k])
    requires t[i] == 48 ==> j == i + 1
    ensures NumberEnd(t, i, state) == Some(j)
  {
    assert IsDigit(t[i]);
    if t[i] != 48 {
      DigitsAreSkipped(t, i + 1, j, InDigits);
      assert NextState(state, t[i]) == InDigits;
    }
  }

  /** A printed integer is scanned to its end, as long as no further number character follows. */
  lemma ScanInt(t: seq<byte>, i: nat, n: int)
    requires Terminated(t) && i + |IntText(n)| < |t| && t[i..i + |IntText(n)|] == IntText(n)
    requires !InNumber(t[i + |IntText(n)|])
    ensures NumberEnd(t, i, Minus) == Some(i + |IntText(n)|)
  {
    if n < 0 {
      assert t[i] == t[i..i + |IntText(n)|][0] == 45;
      assert t[i + 1..i + |IntText(n)|] == t[i..i + |IntText(n)|][1..] == Digits(-n);
      ScanDigits(t, i + 1, -n, AfterMinus);
    } else {
      ScanDigits(t, i, n, Minus);
    }
  }
}

/** Value trees, the printer, the parser as a function of the text, and the law that joins them. */
module JsonValues {
  import opened Bytes
  import opened Options
  import opened JsonStrings
  import opened JsonNumbers

  const MAX_DEPTH := 10000

  datatype Value =
    | Null
    | False
    | True
    | Number(n: int)
    | Decimal(text: seq<byte>)
    | Str(s: seq<byte>)
    | List(items: seq<Value>)
    | Object(members: seq<Member>)

  datatype Member = Member(key: seq<byte>, value: Value)

  /** The trees the printer covers here: all but floating-point numbers. */
  predicate Printable(v: Value) {
    match v
    case Decimal(_) => false
    case List(items) => forall x <- items :: Printable(x)
    case Object(members) => forall m <- members :: Printable(m.value)
    case _ => true
  }

  /** How many containers enclose one another at the deepest point. */
  function Nesting(v: Value): nat {
    match v
    case List(items) => 1 + NestingOfItems(items)
    case Object(members) => 1 + NestingOfMembers(members)
    case _ => 0
  }

  function NestingOfItems(items: seq<Value>): nat {
    if items == [] then 0
    else
      var a, b := Nesting(items[0]), NestingOfItems(items[1..]);
      if a > b then a else b
  }

  function NestingOfMembers(members: seq<Member>): nat {
    if members == [] then 0
    else
      var a, b := Nesting(members[0].value), NestingOfMembers(members[1..]);
      if a > b then a else b
  }

  function Quoted(s: seq<byte>): seq<byte> {
    [QUOTE] + Escaped(s) + [QUOTE]
  }

  function Dump(v: Value): seq<byte> {
    match v
    case Null => [110, 117, 108, 108]
    case False => [102, 97, 108, 115, 101]
    case True => [116, 114, 117, 101]
    case Number(n) => IntText(n)
    case Decimal(text) => text
    case Str(s) => Quoted(s)
    case List(items) => [91] + DumpItems(items, true) + [93]
    case Object(members) => [123] + DumpMembers(members, true) + [125]
  }

  function DumpItems(items: seq<Value>, first: bool): seq<byte> {
    if items == [] then []
    else (if first then [] else [44]) + Dump(items[0]) + DumpItems(items[1..], false)
  }

  function DumpMember(m: Member): seq<byte> {
    Quoted(m.key) + [58] + Dump(m.value)
  }

  function DumpMembers(members: seq<Member>, first: bool): seq<byte> {
    if members == [] then []
    else (if first then [] else [44]) + DumpMember(members[0]) + DumpMembers(members[1..], false)
  }

  predicate IsBlank(c: byte) {
    c == SPACE || c == TAB || c == CR || c == LF
  }

  function SkipBlanks(t: seq<byte>, i: nat): (j: nat)
    requires Terminated(t) && i < |t|
    ensures i <= j < |t| && !IsBlank(t[j])
    decreases |t| - i
  {
    if IsBlank(t[i]) then SkipBlanks(t, i + 1) else i
  }

  predicate At(t: seq<byte>, i: nat, word: seq<byte>) {
    i + |word| <= |t| && t[i..i + |word|] == word
  }

  /** A word that does not end with NUL ends before the terminator. */
  lemma WordEnds(t: seq<byte>, i: nat, word: seq<byte>)
    requires Terminated(t) && At(t, i, word) && word != [] && word[|word| - 1] != NUL
    ensures i + |word| < |t|
  {
    assert t[i..i + |word|][|word| - 1] == t[i + |word| - 1];
  }

  function NumberValue(text: seq<byte>): Value {
    if text != [] && IsInteger(text) then Number(IntOf(text)) else Decimal(text)
  }

  /** A value read from position `i`, and the position after it. */
  function ParseValue(t: seq<byte>, i: nat, depth: nat): (r: Option<(Value, nat)>)
    requires Terminated(t) && i < |t|
    ensures r.Some? ==> i < r.value.1 < |t|
    decreases |t| - i, 3
  {
    if t[i] == 91 then ParseList(t, i, depth + 1)
    else if t[i] == 123 then ParseObject(t, i, depth + 1)
    else if t[i] == QUOTE then
      match ClosingQuote(t, i + 1)
      case None => None
      case Some(close) =>
        ClosedTextIsGood(t, i + 1);
        Some((Str(Decoded(t[i + 1..close])), close + 1))
    else if t[i] == 116 then
      if At(t, i, Dump(True)) then WordEnds(t, i, Dump(True)); Some((True, i + 4)) else None
    else if t[i] == 102 then
      if At(t, i, Dump(False)) then WordEnds(t, i, Dump(False)); Some((False, i + 5)) else None
    else if t[i] == 110 then
      if At(t, i, Dump(Null)) then WordEnds(t, i, Dump(Null)); Some((Null, i + 4)) else None
    else
      match NumberEnd(t, i, Minus)
      case None => None
      case Some(end) => Some((NumberValue(t[i..end]), end))
  }

  function ParseList(t: seq<byte>, i: nat, depth: nat): (r: Option<(Value, nat)>)
    requires Terminated(t) && i < |t| && t[i] == 91
    ensures r.Some? ==> i < r.value.1 < |t|
    decreases |t| - i, 2
  {
    if depth > MAX_DEPTH then None
    else
      var j := SkipBlanks(t, i + 1);
      if t[j] == 93 then Some((List([]), j + 1))
      else
        match ParseItems(t, j, depth)
        case None => None
        case Some((items, end)) => Some((List(items), end))
  }

  /** One or more elements and the bracket that ends them. */
  function ParseItems(t: seq<byte>, i: nat, depth: nat): (r: Option<(seq<Value>, nat)>)
    requires Terminated(t) && i < |t|
    ensures r.Some? ==> i < r.value.1 < |t|
    decreases |t| - i, 4
  {
    match ParseValue(t, i, depth + 1)
    case None => None
    case Some((v, end)) =>
      var j := SkipBlanks(t, end);
      if t[j] == 93 then Some(([v], j + 1))
      else if t[j] != 44 then None
      else
        match ParseItems(t, SkipBlanks(t, j + 1), depth)
        case None => None
        case Some((rest, last)) => Some(([v] + rest, last))
  }

  function ParseObject(t: seq<byte>, i: nat, depth: nat): (r: Option<(Value, nat)>)
    requires Terminated(t) && i < |t| && t[i] == 123
    ensures r.Some? ==> i < r.value.1 < |t|
    decreases |t| - i, 2
  {
    if depth > MAX_DEPTH then None
    else
      var j := SkipBlanks(t, i + 1);
      if t[j] == 125 then Some((Object([]), j + 1))
      else
        match ParseMembers(t, j, depth)
        case None => None
        case Some((members, end)) => Some((Object(members), end))
  }

  /** A key, a colon and a value. */
  function ParseMember(t: seq<byte>, i: nat, depth: nat): (r: Option<(Member, nat)>)
    requires Terminated(t) && i < |t|
    ensures r.Some? ==> i < r.value.1 < |t|
    decreases |t| - i, 4
  {
    if t[i] != QUOTE then None
    else
      match ClosingQuote(t, i + 1)
      case None => None
      case Some(close) =>
        ClosedTextIsGood(t, i + 1);
        var colon := SkipBlanks(t, close + 1);
        if t[colon] != 58 then None
        else
          match ParseValue(t, SkipBlanks(t, colon + 1), depth + 1)
          case None => None
          case Some((v, end)) => Some((Member(Decoded(t[i + 1..close]), v), end))
  }

  function ParseMembers(t: seq<byte>, i: nat, depth: nat): (r: Option<(seq<Member>, nat)>)
    requires Terminated(t) && i < |t|
    ensures r.Some? ==> i < r.value.1 < |t|
    decreases |t| - i, 5
  {
    match ParseMember(t, i, depth)
    case None => None
    case Some((m, end)) =>
      var j := SkipBlanks(t, end);
      if t[j] == 125 then Some(([m], j + 1))
      else if t[j] != 44 then None
      else
        match ParseMembers(t, SkipBlanks(t, j + 1), depth)
        case None => None
        case Some((rest, last)) => Some(([m] + rest, last))
  }

  /** A whole document: blanks, one value, blanks, the terminating NUL. */
  function ParseDocument(t: seq<byte>): Option<Value>
    requires Terminated(t)
  {
    match ParseValue(t, SkipBlanks(t, 0), 0)
    case None => None
    case Some((v, end)) => if t[SkipBlanks(t, end)] == NUL then Some(v) else None
  }

  /** A sequence read before the rest of it. */
  function Prepend<T>(front: seq<T>, rest: Option<(seq<T>, nat)>): Option<(seq<T>, nat)> {
    match rest
    case None => None
    case Some((back, end)) => Some((front + back, end))
  }

  /** The list parser's step, by what follows the element. */
  lemma ItemsNext(t: seq<byte>, i: nat, depth: nat)
    requires Terminated(t) && i < |t|
    ensures ParseValue(t, i, depth + 1) == None ==> ParseItems(t, i, depth) == None
    ensures ParseValue(t, i, depth + 1).Some? ==>
      var (v, end) := ParseValue(t, i, depth + 1).value;
      var j := SkipBlanks(t, end);
      && (t[j] == 93 ==> ParseItems(t, i, depth) == Some(([v], j + 1)))
      && (t[j] != 93 && t[j] != 44 ==> ParseItems(t, i, depth) == None)
      && (t[j] == 44 ==> ParseItems(t, i, depth) == Prepend([v], ParseItems(t, SkipBlanks(t, j + 1), depth)))
  {
    hide ParseValue;
  }

  lemma MembersNext(t: seq<byte>, i: nat, depth: nat)
    requires Terminated(t) && i < |t|
    ensures ParseMember(t, i, depth) == None ==> ParseMembers(t, i, depth) == None
    ensures ParseMember(t, i, depth).Some? ==>
      var (m, end) := ParseMember(t, i, depth).value;
      var j := SkipBlanks(t, end);
      && (t[j] == 125 ==> ParseMembers(t, i, depth) == Some(([m], j + 1)))
      && (t[j] != 125 && t[j] != 44 ==> ParseMembers(t, i, depth) == None)
      && (t[j] == 44 ==> ParseMembers(t, i, depth) == Prepend([m], ParseMembers(t, SkipBlanks(t, j + 1), depth)))
  {
    hide ParseMember;
  }

  /** The member parser's step, by what the key, the colon and the value are. */
  lemma MemberNext(t: seq<byte>, i: nat, depth: nat)
    requires Terminated(t) && i < |t|
    ensures t[i] != QUOTE || ClosingQuote(t, i + 1) == None ==> ParseMember(t, i, depth) == None
    ensures t[i] == QUOTE && ClosingQuote(t, i + 1).Some? ==>
      var close := ClosingQuote(t, i + 1).value;
      var colon := SkipBlanks(t, close + 1);
      && GoodText(t[i + 1..close])
      && (t[colon] != 58 ==> ParseMember(t, i, depth) == None)
      && (t[colon] == 58 ==>
            match ParseValue(t, SkipBlanks(t, colon + 1), depth + 1)
            case None => ParseMember(t, i, depth) == None
            case Some((v, end)) => ParseMember(t, i, depth) == Some((Member(Decoded(t[i + 1..close]), v), end)))
  {
    hide ParseValue, GoodText, Decoded;
    if t[i] == QUOTE && ClosingQuote(t, i + 1).Some? {
      ClosedTextIsGood(t, i + 1);
    }
  }
}
