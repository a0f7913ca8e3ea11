/** What the arguments of a route are: decimal numbers and pieces of the URL, filed in the order of the pattern. */
module RouteArguments {
  import opened Alphabets
  import opened Options
  import opened RouteTrie
  import opened Router

  /** The text is that of the number in base 10, with or without leading zeros. */
  predicate Decimal(text: string, n: int) {
    && text != [] && n >= 0
    && if |text| == 1 then n < 10 && text[0] == DIGITS[n]
       else text[|text| - 1] == DIGITS[n % 10] && Decimal(text[..|text| - 1], n / 10)
  }

  lemma DigitsAre(c: char)
    ensures c in DIGITS <==> IsDigit(c)
  {
    if IsDigit(c) {
      DigitIs(c as int - '0' as int);
      assert DIGITS[c as int - '0' as int] == c;
    }
    if c in DIGITS {
      var d :| 0 <= d < 10 && DIGITS[d] == c;
      DigitIs(d);
    }
  }

  predicate AllDigits(text: string) {
    forall k :: 0 <= k < |text| ==> IsDigit(text[k])
  }

  lemma {:induction false} DecimalIsRead(text: string, n: int)
    ensures Decimal(text, n) <==> text != [] && AllDigits(text) && NatOf(text) == n
  {
    hide IsDigit;
    if text != [] {
      var front, last := text[..|text| - 1], text[|text| - 1];
      LastIsDigit(last);
      if front != [] {
        if n >= 0 {
          DecimalIsRead(front, n / 10);
        }
        SnocIsDigits(text);
        NatOfIsNat(front);
      }
      if n >= 0 {
        DigitIs(n % 10);
      }
    }
  }

  lemma LastIsDigit(c: char)
    ensures IsDigit(c) <==> '0' as int <= c as int <= '9' as int
  {
  }

  lemma SnocIsDigits(text: string)
    requires text != []
    ensures AllDigits(text) <==> AllDigits(text[..|text| - 1]) && IsDigit(text[|text| - 1])
  {
    hide IsDigit;
  }

  lemma {:induction false} NatOfIsNat(digits: string)
    ensures AllDigits(digits) ==> NatOf(digits) >= 0
  {
    if digits != [] {
      NatOfIsNat(digits[..|digits| - 1]);
    }
  }

  lemma {:induction false} DigitsEndIs(url: string, i: nat, e: nat)
    requires i <= e <= |url|
    ensures e == DigitsEnd(url, i) <==> AllDigits(url[i..e]) && (e == |url| || !IsDigit(url[e]))
    decreases |url| - i
  {
    hide IsDigit;
    if i < |url| && IsDigit(url[i]) {
      if i < e {
        assert url[i..e] == [url[i]] + url[i + 1..e];
        DigitsEndIs(url, i + 1, e);
      }
    } else if i < e {
      assert url[i..e][0] == url[i];
    }
  }

  /**
   A decimal number that no digit follows, with an optional sign, in the range of an int64 or a uint64; a minus
   sign only for the former.
   */
  ghost predicate IsInteger(url: string, pos: nat, signed: bool, end: nat, n: int) {
    && pos < end <= |url| && (end == |url| || url[end] !in DIGITS)
    && (if url[pos] == '-' then signed && Decimal(url[pos + 1..end], -n)
        else if url[pos] == '+' then Decimal(url[pos + 1..end], n)
        else Decimal(url[pos..end], n))
    && if signed then -0x8000_0000_0000_0000 <= n < 0x8000_0000_0000_0000 else n < 0x1_0000_0000_0000_0000
  }

  /** An integer argument is exactly such a text, read as the number it is in base 10. */
  lemma IntegerIsRead(url: string, pos: nat, signed: bool, end: nat, n: int)
    requires pos < |url|
    ensures Integer(url, pos, signed) == Some((end, n)) <==> IsInteger(url, pos, signed, end, n)
  {
    hide Decimal, NatOf, IsDigit, AllDigits;
    var c := url[pos];
    var start := if c == '+' || c == '-' then pos + 1 else pos;
    SignIsNoDigit(c);
    if start <= end <= |url| {
      var text := url[start..end];
      DigitsEndIs(url, start, end);
      NatOfIsNat(text);
      DecimalIsRead(text, n);
      DecimalIsRead(text, -n);
      if end < |url| {
        DigitsAre(url[end]);
      }
      FirstIsDigit(text);
    }
  }

  lemma SignIsNoDigit(c: char)
    ensures c == '+' || c == '-' ==> !IsDigit(c)
  {
  }

  lemma FirstIsDigit(text: string)
    ensures text != [] && AllDigits(text) ==> IsDigit(text[0])
  {
  }

  /** A string argument is the whole segment, a path argument the whole rest. */
  lemma TextIsTaken(url: string, pos: nat, end: nat, text: string, strtod: Strtod)
    requires pos < |url|
    ensures Taken(STRING, url, pos, strtod) == Some((end, AString(text))) <==>
            pos < end <= |url| && text == url[pos..end] && '/' !in text && (end == |url| || url[end] == '/')
    ensures Taken(PATH, url, pos, strtod) == Some((end, AString(text))) <==> end == |url| && text == url[pos..]
  {
    if pos <= end <= |url| {
      SegmentEndIs(url, pos, end);
    }
  }

  /** A floating-point argument is tried where a digit, a sign or a point stands, and is what `strtod` makes of it. */
  lemma DoubleIsTaken(url: string, pos: nat, end: nat, x: real, strtod: Strtod)
    requires pos < |url|
    ensures Taken(DOUBLE, url, pos, strtod) == Some((end, ADouble(x))) <==>
            (url[pos] in DIGITS || url[pos] in "+-.") && strtod(url, pos) == Some((end, x)) && pos < end <= |url|
  {
    DigitsAre(url[pos]);
    hide IsDigit;
    assert "+-."[0] == '+' && "+-."[1] == '-' && "+-."[2] == '.';
  }

  lemma {:induction false} SegmentEndIs(url: string, i: nat, e: nat)
    requires i <= e <= |url|
    ensures e == SegmentEnd(url, i) <==> '/' !in url[i..e] && (e == |url| || url[e] == '/')
    decreases |url| - i
  {
    if i < |url| && url[i] != '/' {
      if i < e {
        assert url[i..e] == [url[i]] + url[i + 1..e];
        SegmentEndIs(url, i + 1, e);
      }
    } else if i < e {
      assert url[i..e][0] == url[i];
    }
  }

  /** The arguments of a pattern in the order of its parameters. */
  function Pieces(tokens: seq<Token>, url: string, pos: nat, strtod: Strtod): Option<seq<Piece>>
    requires pos <= |url|
    decreases |tokens|
  {
    if tokens == [] then if pos == |url| then Some([]) else None
    else if pos == |url| then None
    else if tokens[0].Lit? then if url[pos] == tokens[0].c then Pieces(tokens[1..], url, pos + 1, strtod) else None
    else
      match Taken(tokens[0].kind, url, pos, strtod)
      case None => None
      case Some((end, piece)) =>
        match Pieces(tokens[1..], url, end, strtod) case None => None case Some(rest) => Some([piece] + rest)
  }

  /** One argument, in the list of its type. */
  function Alone(piece: Piece): Params {
    match piece
    case AnInt(n) => Params([n], [], [], [])
    case AUint(n) => Params([], [n], [], [])
    case ADouble(x) => Params([], [], [x], [])
    case AString(s) => Params([], [], [], [s])
  }

  function Joined(p: Params, q: Params): Params {
    Params(p.ints + q.ints, p.uints + q.uints, p.doubles + q.doubles, p.strings + q.strings)
  }

  function Filed(pieces: seq<Piece>): Params {
    if pieces == [] then NO_PARAMS else Joined(Alone(pieces[0]), Filed(pieces[1..]))
  }

  /** A match hands over, type by type, the arguments in the order in which the pattern names them. */
  lemma {:induction false} ArgumentsAreFiled(
      tokens: seq<Token>, url: string, pos: nat, params: Params, strtod: Strtod)
    requires pos <= |url|
    ensures Match(tokens, url, pos, params, strtod) ==
            match Pieces(tokens, url, pos, strtod) case None => None case Some(pieces) => Some(Joined(params, Filed(pieces)))
    decreases |tokens|
  {
    hide Taken, Joined, Push;
    JoinedNothing(params);
    if tokens != [] && pos < |url| {
      if tokens[0].Lit? {
        ArgumentsAreFiled(tokens[1..], url, pos + 1, params, strtod);
      } else if Taken(tokens[0].kind, url, pos, strtod).Some? {
        var (end, piece) := Taken(tokens[0].kind, url, pos, strtod).value;
        ArgumentsAreFiled(tokens[1..], url, end, Push(params, piece), strtod);
        if Pieces(tokens[1..], url, end, strtod).Some? {
          var rest := Pieces(tokens[1..], url, end, strtod).value;
          assert ([piece] + rest)[1..] == rest;
          PushIsJoined(params, piece, Filed(rest));
        }
      }
    }
  }

  lemma JoinedNothing(params: Params)
    ensures Joined(params, NO_PARAMS) == params
  {
  }

  lemma PushIsJoined(p: Params, piece: Piece, rest: Params)
    ensures Joined(Push(p, piece), rest) == Joined(p, Joined(Alone(piece), rest))
  {
    var own := Alone(piece);
    assert p.ints + (own.ints + rest.ints) == p.ints + own.ints + rest.ints;
    assert p.uints + (own.uints + rest.uints) == p.uints + own.uints + rest.uints;
    assert p.doubles + (own.doubles + rest.doubles) == p.doubles + own.doubles + rest.doubles;
    assert p.strings + (own.strings + rest.strings) == p.strings + own.strings + rest.strings;
    match piece {
      case AnInt(_) => assert Push(p, piece).ints == p.ints + own.ints;
      case AUint(_) => assert Push(p, piece).uints == p.uints + own.uints;
      case ADouble(_) => assert Push(p, piece).doubles == p.doubles + own.doubles;
      case AString(_) => assert Push(p, piece).strings == p.strings + own.strings;
    }
  }

  /** How the patterns of rules name the kinds of parameters. */
  function Names(kind: Kind): set<string> {
    match kind
    case INT => {"<int>"}
    case UINT => {"<uint>"}
    case DOUBLE => {"<float>", "<double>"}
    case STRING => {"<str>", "<string>"}
    case PATH => {"<path>"}
  }

  /** The text from `i` on is the tokens one after another: a character other than `<` and NUL, or a name. */
  ghost predicate Written(tokens: seq<Token>, url: string, i: nat)
    requires i <= |url|
    decreases |tokens|
  {
    if tokens == [] then i == |url|
    else
      match tokens[0]
      case Lit(c) => i < |url| && url[i] == c && c != '<' && c != '\0' && Written(tokens[1..], url, i + 1)
      case Par(kind) =>
        exists name <- Names(kind) :: StartsWith(url, i, name) && Written(tokens[1..], url, i + |name|)
  }

  lemma NameStarts(url: string, i: nat, kind: Kind, name: string)
    requires name in Names(kind) && StartsWith(url, i, name)
    ensures |name| >= 5 && i + |name| <= |url| && url[i] == '<' && url[i + 1] == name[1] && url[i + 4] == name[4]
  {
    var text := url[i..i + |name|];
    assert text[0] == name[0] == '<' && text[1] == name[1] && text[4] == name[4];
  }

  lemma NameIsKnown(url: string, i: nat, kind: Kind, name: string)
    requires name in Names(kind) && StartsWith(url, i, name)
    ensures ParamAt(url, i) == Some((kind, |name|))
  {
    NameStarts(url, i, kind, name);
    NoOther(url, i, INT, "<int>", name);
    NoOther(url, i, UINT, "<uint>", name);
    NoOther(url, i, DOUBLE, "<float>", name);
    NoOther(url, i, DOUBLE, "<double>", name);
    NoOther(url, i, STRING, "<str>", name);
    NoOther(url, i, STRING, "<string>", name);
    NoOther(url, i, PATH, "<path>", name);
    hide StartsWith;
  }

  lemma NoOther(url: string, i: nat, kind: Kind, name: string, known: string)
    requires name in Names(kind) && |known| >= 5 && i + |known| <= |url| && url[i + 1] == known[1] && url[i + 4] == known[4]
    ensures StartsWith(url, i, name) ==> name[1] == known[1] && name[4] == known[4]
  {
    if StartsWith(url, i, name) {
      NameStarts(url, i, kind, name);
    }
  }

  lemma KnownIsName(url: string, i: nat)
    requires ParamAt(url, i).Some?
    ensures var (kind, n) := ParamAt(url, i).value;
      exists name <- Names(kind) :: StartsWith(url, i, name) && |name| == n
  {
    hide StartsWith;
    if StartsWith(url, i, "<int>") {
      assert "<int>" in Names(INT);
    } else if StartsWith(url, i, "<uint>") {
      assert "<uint>" in Names(UINT);
    } else if StartsWith(url, i, "<float>") {
      assert "<float>" in Names(DOUBLE);
    } else if StartsWith(url, i, "<double>") {
      assert "<double>" in Names(DOUBLE);
    } else if StartsWith(url, i, "<str>") {
      assert "<str>" in Names(STRING);
    } else if StartsWith(url, i, "<string>") {
      assert "<string>" in Names(STRING);
    } else {
      assert "<path>" in Names(PATH);
    }
  }

  lemma TokensOfRest(url: string, i: nat, tokens: seq<Token>)
    requires i < |url| && tokens != []
    ensures Tokens(url, i) == Some(tokens) <==>
            if url[i] == '<' then
              ParamAt(url, i).Some?
              && var (kind, n) := ParamAt(url, i).value; tokens[0] == Par(kind) && Tokens(url, i + n) == Some(tokens[1..])
            else url[i] != '\0' && tokens[0] == Lit(url[i]) && Tokens(url, i + 1) == Some(tokens[1..])
  {
    hide ParamAt;
    assert tokens == [tokens[0]] + tokens[1..];
  }

  /** A rule's pattern is read as the tokens it is written with, and only so. */
  lemma {:induction false} PatternIsRead(url: string, i: nat, tokens: seq<Token>)
    requires i <= |url|
    ensures Tokens(url, i) == Some(tokens) <==> Written(tokens, url, i)
    decreases |tokens|
  {
    hide ParamAt, Names, StartsWith, Tokens;
    if tokens == [] || i == |url| {
      NothingIsRead(url, i, tokens);
    } else {
      TokensOfRest(url, i, tokens);
      if url[i] != '<' {
        PatternIsRead(url, i + 1, tokens[1..]);
        NoNameStarts(url, i);
      } else if ParamAt(url, i).Some? {
        var (kind, n) := ParamAt(url, i).value;
        PatternIsRead(url, i + n, tokens[1..]);
        KnownIsName(url, i);
        KnownIsOnlyName(url, i);
      } else {
        KnownIsOnlyName(url, i);
      }
    }
  }

  lemma NothingIsRead(url: string, i: nat, tokens: seq<Token>)
    requires i <= |url| && (tokens == [] || i == |url|)
    ensures (Tokens(url, i) == Some(tokens) <==> tokens == [] && i == |url|)
      && (Written(tokens, url, i) <==> tokens == [] && i == |url|)
  {
    if tokens != [] && i == |url| {
      forall kind, name | name in Names(kind)
        ensures !StartsWith(url, i, name)
      {
        if StartsWith(url, i, name) {
          NameStarts(url, i, kind, name);
          assert false;
        }
      }
    }
    hide ParamAt, Names, StartsWith;
  }

  lemma NoNameStarts(url: string, i: nat)
    requires i < |url| && url[i] != '<'
    ensures forall kind, name :: name in Names(kind) ==> !StartsWith(url, i, name)
  {
    forall kind, name | name in Names(kind)
      ensures !StartsWith(url, i, name)
    {
      if StartsWith(url, i, name) {
        NameStarts(url, i, kind, name);
        assert false;
      }
    }
  }

  lemma KnownIsOnlyName(url: string, i: nat)
    ensures forall kind, name :: name in Names(kind) && StartsWith(url, i, name) ==>
              ParamAt(url, i) == Some((kind, |name|))
  {
    forall kind, name | name in Names(kind) && StartsWith(url, i, name)
      ensures ParamAt(url, i) == Some((kind, |name|))
    {
      NameIsKnown(url, i, kind, name);
    }
  }
}
