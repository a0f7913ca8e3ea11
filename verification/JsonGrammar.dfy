/**
 The grammar of RFC 8259 as the parser takes it: documents with every choice a writer has spelt out, what they look
 like, what they mean, and that the parser reads exactly them.
 */
module JsonGrammar {
  import opened Bytes
  import opened Options
  import opened JsonEscapes
  import opened JsonStrings
  import opened JsonNumbers
  import opened JsonValues
  import opened JsonNumberGrammar
  import opened JsonRoundTrip

  datatype Doc =
    | NullDoc
    | FalseDoc
    | TrueDoc
    | NumberDoc(parts: Parts)
    | StringDoc(chars: seq<Char>)
    | EmptyList(gap: seq<byte>)
    | ListDoc(items: seq<Item>)
    | EmptyObject(gap: seq<byte>)
    | ObjectDoc(fields: seq<Field>)

  /** An element with the blanks around it. */
  datatype Item = Item(before: seq<byte>, doc: Doc, after: seq<byte>)

  /** A member with the blanks before the key, around the colon and after the value. */
  datatype Field = Field(before: seq<byte>, key: seq<Char>, left: seq<byte>, right: seq<byte>, doc: Doc, after: seq<byte>)

  const NULL_WORD: seq<byte> := [110, 117, 108, 108]
  const FALSE_WORD: seq<byte> := [102, 97, 108, 115, 101]
  const TRUE_WORD: seq<byte> := [116, 114, 117, 101]

  /** Space, tab, line feed, carriage return. */
  predicate Blank(c: byte) {
    c in [32, 9, 10, 13]
  }

  predicate Blanks(gap: seq<byte>) {
    forall k :: 0 <= k < |gap| ==> Blank(gap[k])
  }

  /** A character of a literal: what ends it, a quote or a NUL, has to be escaped; other control characters need not. */
  predicate GoodChars(chars: seq<Char>) {
    AreChars(chars) && forall k :: 0 <= k < |chars| ==> StaysOpen(chars[k])
  }

  /** All of a member but its value. */
  predicate GoodAround(f: Field) {
    Blanks(f.before) && GoodChars(f.key) && Blanks(f.left) && Blanks(f.right) && Blanks(f.after)
  }

  predicate Good(doc: Doc) {
    match doc
    case NumberDoc(p) => GoodParts(p)
    case StringDoc(chars) => GoodChars(chars)
    case EmptyList(gap) => Blanks(gap)
    case ListDoc(items) => items != [] && GoodItems(items)
    case EmptyObject(gap) => Blanks(gap)
    case ObjectDoc(fields) => fields != [] && GoodFields(fields)
    case _ => true
  }

  predicate GoodItems(items: seq<Item>) {
    items == [] ||
    (Blanks(items[0].before) && Good(items[0].doc) && Blanks(items[0].after) && GoodItems(items[1..]))
  }

  predicate GoodFields(fields: seq<Field>) {
    fields == [] || (GoodAround(fields[0]) && Good(fields[0].doc) && GoodFields(fields[1..]))
  }

  function Literal(chars: seq<Char>): seq<byte>
    requires GoodChars(chars)
  {
    [QUOTE] + AllSpelled(chars) + [QUOTE]
  }

  function Text(doc: Doc): seq<byte>
    requires Good(doc)
  {
    match doc
    case NullDoc => NULL_WORD
    case FalseDoc => FALSE_WORD
    case TrueDoc => TRUE_WORD
    case NumberDoc(p) => PartsText(p)
    case StringDoc(chars) => Literal(chars)
    case EmptyList(gap) => [91] + gap + [93]
    case ListDoc(items) => [91] + (items[0].before + ItemsText(items))
    case EmptyObject(gap) => [123] + gap + [125]
    case ObjectDoc(fields) => [123] + (fields[0].before + FieldsText(fields))
  }

  /** From the first element to the bracket. */
  function ItemsText(items: seq<Item>): seq<byte>
    requires items != [] && GoodItems(items)
  {
    Text(items[0].doc) + (items[0].after
      + if |items| == 1 then [93] else [44] + (items[1].before + ItemsText(items[1..])))
  }

  function FieldText(f: Field): seq<byte>
    requires GoodAround(f) && Good(f.doc)
  {
    Literal(f.key) + (f.left + ([58] + (f.right + Text(f.doc))))
  }

  function FieldsText(fields: seq<Field>): seq<byte>
    requires fields != [] && GoodFields(fields)
  {
    FieldText(fields[0]) + (fields[0].after
      + if |fields| == 1 then [125] else [44] + (fields[1].before + FieldsText(fields[1..])))
  }

  /** A document stands for a value. */
  predicate Denotes(doc: Doc, v: Value)
    requires Good(doc)
  {
    match doc
    case NullDoc => v == Null
    case FalseDoc => v == False
    case TrueDoc => v == True
    case NumberDoc(p) =>
      if p.point.None? && p.exponent.None? then v.Number? && DecimalText(p.whole, if p.minus then -v.n else v.n)
      else v == Decimal(PartsText(p))
    case StringDoc(chars) => v.Str? && ReadsAs(v.s, chars)
    case EmptyList(_) => v == List([])
    case ListDoc(items) => v.List? && DenoteItems(items, v.items)
    case EmptyObject(_) => v == Object([])
    case ObjectDoc(fields) => v.Object? && DenoteFields(fields, v.members)
  }

  predicate DenoteItems(items: seq<Item>, values: seq<Value>)
    requires GoodItems(items)
  {
    && |items| == |values|
    && (items == [] || (Denotes(items[0].doc, values[0]) && DenoteItems(items[1..], values[1..])))
  }

  predicate DenoteFields(fields: seq<Field>, members: seq<Member>)
    requires GoodFields(fields)
  {
    && |fields| == |members|
    && (fields == []
        || (ReadsAs(members[0].key, fields[0].key) && Denotes(fields[0].doc, members[0].value)
            && DenoteFields(fields[1..], members[1..])))
  }

  /** How many containers enclose one another. */
  function Depth(doc: Doc): nat {
    match doc
    case EmptyList(_) => 1
    case ListDoc(items) => 1 + DepthOfItems(items)
    case EmptyObject(_) => 1
    case ObjectDoc(fields) => 1 + DepthOfFields(fields)
    case _ => 0
  }

  function DepthOfItems(items: seq<Item>): nat {
    if items == [] then 0
    else
      var a, b := Depth(items[0].doc), DepthOfItems(items[1..]);
      if a > b then a else b
  }

  function DepthOfFields(fields: seq<Field>): nat {
    if fields == [] then 0
    else
      var a, b := Depth(fields[0].doc), DepthOfFields(fields[1..]);
      if a > b then a else b
  }

  // ----- Blanks -----

  lemma BlankIs(c: byte)
    ensures Blank(c) <==> IsBlank(c)
  {
  }

  lemma {:induction false} GapIsSkipped(t: seq<byte>, i: nat, gap: seq<byte>)
    requires Terminated(t) && Blanks(gap) && At(t, i, gap) && i + |gap| < |t| && !Blank(t[i + |gap|])
    ensures SkipBlanks(t, i) == i + |gap|
    decreases |gap|
  {
    hide Blank, IsBlank;
    BlankIs(t[i]);
    if gap != [] {
      AtFirst(t, i, gap);
      assert t[i + 1..i + |gap|] == t[i..i + |gap|][1..];
      GapIsSkipped(t, i + 1, gap[1..]);
    }
  }

  lemma {:induction false} SkippedIsGap(t: seq<byte>, i: nat)
    requires Terminated(t) && i < |t|
    ensures Blanks(t[i..SkipBlanks(t, i)]) && !Blank(t[SkipBlanks(t, i)])
    decreases |t| - i
  {
    hide Blank, IsBlank;
    BlankIs(t[i]);
    if IsBlank(t[i]) {
      NulIsNoBlank();
      SkippedIsGap(t, i + 1);
      var j := SkipBlanks(t, i + 1);
      assert t[i..j] == [t[i]] + t[i + 1..j];
    }
  }

  lemma NulIsNoBlank()
    ensures !IsBlank(NUL)
  {
  }

  // ----- Every document is read -----

  lemma DocFirst(doc: Doc)
    requires Good(doc)
    ensures Text(doc) != [] && !Blank(Text(doc)[0]) && Text(doc)[0] != 93 && Text(doc)[0] != 125
    ensures doc.NumberDoc? ==> Text(doc)[0] == 45 || IsDec(Text(doc)[0])
  {
    hide ItemsText, FieldsText, AllSpelled, PartsText, IsDec;
    if doc.NumberDoc? {
      NumberFirst(doc.parts);
    }
  }

  lemma NumberFirst(p: Parts)
    requires GoodParts(p)
    ensures PartsText(p) != [] && (PartsText(p)[0] == 45 || IsDec(PartsText(p)[0]))
    ensures !Blank(PartsText(p)[0]) && PartsText(p)[0] != 93 && PartsText(p)[0] != 125
  {
    PartsAreSome(p);
    DecIsDigit(PartsText(p)[0]);
  }

  lemma WordIsRead(t: seq<byte>, i: nat, doc: Doc, depth: nat) returns (v: Value)
    requires Terminated(t) && (doc.NullDoc? || doc.FalseDoc? || doc.TrueDoc?)
    requires At(t, i, Text(doc)) && i + |Text(doc)| < |t|
    ensures ParseValue(t, i, depth) == Some((v, i + |Text(doc)|)) && Denotes(doc, v)
  {
    hide ParseList, ParseObject, NumberEnd, ClosingQuote;
    AtFirst(t, i, Text(doc));
    v := if doc.NullDoc? then Null else if doc.FalseDoc? then False else True;
  }

  lemma NumberIsRead(t: seq<byte>, i: nat, p: Parts, depth: nat) returns (v: Value)
    requires Terminated(t) && GoodParts(p) && At(t, i, PartsText(p))
    requires i + |PartsText(p)| < |t| && Stops(t[i + |PartsText(p)|])
    ensures ParseValue(t, i, depth) == Some((v, i + |PartsText(p)|)) && Denotes(NumberDoc(p), v)
  {
    hide GoodParts, PartsText, ParseValue, NumberValue, NumberEnd, Stops, Denotes, At;
    NumberStartsValue(t, i, p, depth);
    PartsAreScanned(t, i, p);
    v := NumberValue(PartsText(p));
    ValueIsNumber(p, v);
  }

  lemma PartsAreScanned(t: seq<byte>, i: nat, p: Parts)
    requires Terminated(t) && GoodParts(p) && At(t, i, PartsText(p))
    requires i + |PartsText(p)| < |t| && Stops(t[i + |PartsText(p)|])
    ensures NumberEnd(t, i, Minus) == Some(i + |PartsText(p)|) && t[i..i + |PartsText(p)|] == PartsText(p)
  {
    hide GoodParts, PartsText, NumberEnd, Stops;
    PartsAreSome(p);
    NumberIsScanned(t, i, i + |PartsText(p)|);
  }

  lemma NumberStartsValue(t: seq<byte>, i: nat, p: Parts, depth: nat)
    requires Terminated(t) && GoodParts(p) && At(t, i, PartsText(p)) && i + |PartsText(p)| < |t|
    ensures ParseValue(t, i, depth) ==
            match NumberEnd(t, i, Minus) case None => None case Some(end) => Some((NumberValue(t[i..end]), end))
  {
    hide PartsText, ParseList, ParseObject, NumberEnd, ClosingQuote, GoodParts;
    PartsAreSome(p);
    AtFirst(t, i, PartsText(p));
    DecIsDigit(t[i]);
    hide IsDec;
  }

  lemma ValueIsNumber(p: Parts, v: Value)
    requires GoodParts(p) && v == NumberValue(PartsText(p))
    ensures Denotes(NumberDoc(p), v)
  {
    hide GoodParts, PartsText, DecimalText;
    if p.point.None? && p.exponent.None? {
      WholeValue(p);
      NumberMeans(p, v.n);
    } else {
      NumberMeans(p, 0);
    }
  }

  lemma WholeValue(p: Parts)
    requires GoodParts(p) && p.point.None? && p.exponent.None?
    ensures NumberValue(PartsText(p)).Number?
  {
    hide IsDec;
    WholeIsInteger(p.whole);
    SignedIsInteger(p.whole);
    assert PartsText(p) == if p.minus then [45] + p.whole else p.whole;
  }

  lemma EndsElement(c: byte)
    ensures Blank(c) || c == 44 || c == 93 || c == 125 ==> Stops(c)
    ensures c == 44 || c == 93 || c == 125 || c == 58 || c == QUOTE ==> !Blank(c)
  {
    DecIsDigit(c);
  }

  lemma FitsInside(doc: Doc, depth: nat)
    ensures match doc
            case ListDoc(items) =>
              Fits(depth, Depth(doc)) <==> depth + 1 <= MAX_DEPTH && Fits(depth + 2, DepthOfItems(items))
            case ObjectDoc(fields) =>
              Fits(depth, Depth(doc)) <==> depth + 1 <= MAX_DEPTH && Fits(depth + 2, DepthOfFields(fields))
            case EmptyList(_) => Fits(depth, Depth(doc)) <==> depth + 1 <= MAX_DEPTH
            case EmptyObject(_) => Fits(depth, Depth(doc)) <==> depth + 1 <= MAX_DEPTH
            case _ => Fits(depth, Depth(doc))
  {
  }

  lemma FitsParts(items: seq<Item>, depth: nat)
    requires items != []
    ensures Fits(depth, DepthOfItems(items)) <==>
            Fits(depth, Depth(items[0].doc)) && Fits(depth, DepthOfItems(items[1..]))
  {
  }

  lemma FitsFields(fields: seq<Field>, depth: nat)
    requires fields != []
    ensures Fits(depth, DepthOfFields(fields)) <==>
            Fits(depth, Depth(fields[0].doc)) && Fits(depth, DepthOfFields(fields[1..]))
  {
  }

  lemma NoneFit(depth: nat)
    ensures Fits(depth, DepthOfItems([])) && Fits(depth, DepthOfFields([]))
    ensures DenoteItems([], []) && DenoteFields([], [])
  {
  }

  lemma JoinAt(t: seq<byte>, i: nat, head: seq<byte>, gap: seq<byte>, tail: seq<byte>)
    requires At(t, i, head) && At(t, i + |head|, gap) && At(t, i + |head| + |gap|, tail)
    ensures At(t, i, head + (gap + tail))
  {
    hide At;
    AtConcat(t, i + |head|, gap, tail);
    AtConcat(t, i, head, gap + tail);
  }

  lemma AtFits(t: seq<byte>, i: nat, word: seq<byte>)
    requires At(t, i, word)
    ensures i + |word| <= |t|
  {
  }

  /** What the text between two elements is, and where the parser goes on. */
  lemma GapAndTail(t: seq<byte>, i: nat, head: seq<byte>, gap: seq<byte>, tail: seq<byte>)
    requires Terminated(t) && At(t, i, head + (gap + tail))
    requires Blanks(gap) && tail != [] && !Blank(tail[0])
    ensures var end := i + |head|;
      && At(t, i, head) && end < |t| && SkipBlanks(t, end) == end + |gap| < |t|
      && At(t, end + |gap|, tail) && t[end + |gap|] == tail[0]
      && (if gap == [] then t[end] == tail[0] else Blank(t[end]))
  {
    hide Blank, At, SkipBlanks, IsBlank;
    var end := i + |head|;
    AtFits(t, i, head + (gap + tail));
    AtConcat(t, i, head, gap + tail);
    AtConcat(t, end, gap, tail);
    AtFirst(t, end + |gap|, tail);
    GapIsSkipped(t, end, gap);
    if gap != [] {
      AtFirst(t, end, gap);
    }
  }

  /**
   Every document of the grammar, at any place of any text, is read as a value it denotes when it fits the depth that
   is left, and refused when it does not. A number must not be followed by a character that would continue it.
   */
  lemma {:induction false} DocIsRead(t: seq<byte>, i: nat, doc: Doc, depth: nat) returns (v: Value)
    requires Terminated(t) && Good(doc) && At(t, i, Text(doc)) && i + |Text(doc)| < |t|
    requires doc.NumberDoc? ==> Stops(t[i + |Text(doc)|])
    ensures ParseValue(t, i, depth) == if Fits(depth, Depth(doc)) then Some((v, i + |Text(doc)|)) else None
    ensures Fits(depth, Depth(doc)) ==> Denotes(doc, v)
    decreases doc, 1
  {
    hide ParseValue, ParseList, ParseObject, At, AllSpelled, AreChars, PartsText, Fits, ReadsAs, Stops, GoodParts, Depth,
      DepthOfItems, DepthOfFields, ItemsText, FieldsText, GoodItems, GoodFields, DenoteItems, DenoteFields, Blanks;
    FitsInside(doc, depth);
    match doc {
      case NumberDoc(p) =>
        v := NumberIsRead(t, i, p, depth);
      case StringDoc(chars) =>
        var text := LiteralIsMeant(t, i, chars, depth);
        v := Str(text);
      case EmptyList(gap) =>
        EmptyIsRead(t, i, gap, depth);
        v := List([]);
      case ListDoc(items) =>
        var values := ListIsRead(t, i, items, depth);
        v := List(values);
      case EmptyObject(gap) =>
        EmptyIsRead(t, i, gap, depth);
        v := Object([]);
      case ObjectDoc(fields) =>
        var members := ObjectIsRead(t, i, fields, depth);
        v := Object(members);
      case _ =>
        v := WordIsRead(t, i, doc, depth);
    }
  }

  lemma EmptyIsRead(t: seq<byte>, i: nat, gap: seq<byte>, depth: nat)
    requires Terminated(t) && Blanks(gap)
    ensures At(t, i, [91] + gap + [93]) && i + |gap| + 2 < |t| ==>
      ParseValue(t, i, depth) == if depth + 1 <= MAX_DEPTH then Some((List([]), i + |gap| + 2)) else None
    ensures At(t, i, [123] + gap + [125]) && i + |gap| + 2 < |t| ==>
      ParseValue(t, i, depth) == if depth + 1 <= MAX_DEPTH then Some((Object([]), i + |gap| + 2)) else None
  {
    hide ParseItems, ParseMembers, NumberEnd, ClosingQuote, At, Blank;
    EndsElement(93);
    EndsElement(125);
    assert [91] + gap + [93] == [91] + (gap + [93]) && [123] + gap + [125] == [123] + (gap + [125]);
    if At(t, i, [91] + gap + [93]) && i + |gap| + 2 < |t| {
      GapAndTail(t, i, [91], gap, [93]);
      AtByte(t, i, 91);
    }
    if At(t, i, [123] + gap + [125]) && i + |gap| + 2 < |t| {
      GapAndTail(t, i, [123], gap, [125]);
      AtByte(t, i, 123);
    }
  }

  lemma {:induction false} ListIsRead(t: seq<byte>, i: nat, items: seq<Item>, depth: nat) returns (values: seq<Value>)
    requires Terminated(t) && items != [] && GoodItems(items)
    requires At(t, i, [91] + (items[0].before + ItemsText(items))) && i + |items[0].before + ItemsText(items)| + 1 < |t|
    ensures ParseValue(t, i, depth) ==
            if depth + 1 <= MAX_DEPTH && Fits(depth + 2, DepthOfItems(items)) then
              Some((List(values), i + |items[0].before + ItemsText(items)| + 1))
            else None
    ensures Fits(depth + 2, DepthOfItems(items)) ==> DenoteItems(items, values)
    decreases items, 1
  {
    hide ParseValue, ParseList, ParseItems, At, ItemsText, DenoteItems, DepthOfItems, Fits, Blank;
    ItemsFirst(items);
    GapAndTail(t, i, [91], items[0].before, ItemsText(items));
    AtByte(t, i, 91);
    OpensContainer(t, i, depth);
    ListStarts(t, i, depth + 1);
    values := ItemsAreRead(t, i + 1 + |items[0].before|, items, depth + 1);
  }

  lemma ItemsFirst(items: seq<Item>)
    requires items != [] && GoodItems(items)
    ensures ItemsText(items) != [] && !Blank(ItemsText(items)[0]) && ItemsText(items)[0] != 93
  {
    hide Blank, Text;
    DocFirst(items[0].doc);
  }

  lemma FieldsFirst(fields: seq<Field>)
    requires fields != [] && GoodFields(fields)
    ensures FieldsText(fields) != [] && FieldsText(fields)[0] == QUOTE
  {
    hide Blank, Text, AllSpelled;
  }

  lemma ListStarts(t: seq<byte>, i: nat, depth: nat)
    requires Terminated(t) && i < |t| - 1 && t[i] == 91 && t[SkipBlanks(t, i + 1)] != 93
    ensures ParseList(t, i, depth) ==
            if depth > MAX_DEPTH then None
            else
              match ParseItems(t, SkipBlanks(t, i + 1), depth)
              case None => None
              case Some((items, end)) => Some((List(items), end))
  {
    hide ParseItems;
  }

  lemma ObjectStarts(t: seq<byte>, i: nat, depth: nat)
    requires Terminated(t) && i < |t| - 1 && t[i] == 123 && t[SkipBlanks(t, i + 1)] != 125
    ensures ParseObject(t, i, depth) ==
            if depth > MAX_DEPTH then None
            else
              match ParseMembers(t, SkipBlanks(t, i + 1), depth)
              case None => None
              case Some((members, end)) => Some((Object(members), end))
  {
    hide ParseMembers;
  }

  lemma {:induction false} ItemsAreRead(t: seq<byte>, i: nat, items: seq<Item>, depth: nat) returns (values: seq<Value>)
    requires Terminated(t) && items != [] && GoodItems(items)
    requires At(t, i, ItemsText(items)) && i + |ItemsText(items)| < |t|
    ensures ParseItems(t, i, depth) ==
            if Fits(depth + 1, DepthOfItems(items)) then Some((values, i + |ItemsText(items)|)) else None
    ensures Fits(depth + 1, DepthOfItems(items)) ==> DenoteItems(items, values)
    decreases items, 0
  {
    hide ParseValue, ParseItems, At, Text, Denotes, DenoteItems, DepthOfItems, Depth, Fits, Blank, Blanks, Stops, SkipBlanks,
      ItemsText;
    ItemsTextIs(items);
    var rest, head, gap := items[1..], Text(items[0].doc), items[0].after;
    var tail := if |items| == 1 then [93] else [44] + (items[1].before + ItemsText(rest));
    EndsElement(tail[0]);
    GapAndTail(t, i, head, gap, tail);
    EndsElement(t[i + |head|]);
    FitsParts(items, depth + 1);
    NoneFit(depth + 1);
    ItemsNext(t, i, depth);
    var v := DocIsRead(t, i, items[0].doc, depth + 1);
    if rest == [] {
      values := [v];
      ItemsDenote(items, v, []);
      assert [v] + [] == values;
    } else {
      ItemsFirst(rest);
      var comma := i + |head| + |gap|;
      GapAndTail(t, comma, [44], rest[0].before, ItemsText(rest));
      var more := ItemsAreRead(t, comma + 1 + |rest[0].before|, rest, depth);
      values := [v] + more;
      ItemsDenote(items, v, more);
    }
  }

  lemma ItemsTextIs(items: seq<Item>)
    requires items != [] && GoodItems(items)
    ensures ItemsText(items) ==
            Text(items[0].doc) + (items[0].after
              + if |items| == 1 then [93] else [44] + (items[1].before + ItemsText(items[1..])))
  {
    hide Text;
  }

  lemma ItemsDenote(items: seq<Item>, v: Value, more: seq<Value>)
    requires items != [] && GoodItems(items)
    ensures DenoteItems(items, [v] + more) <==> Denotes(items[0].doc, v) && DenoteItems(items[1..], more)
  {
    hide Denotes;
    assert ([v] + more)[1..] == more;
  }

  lemma {:induction false} ObjectIsRead(t: seq<byte>, i: nat, fields: seq<Field>, depth: nat)
    returns (members: seq<Member>)
    requires Terminated(t) && fields != [] && GoodFields(fields)
    requires At(t, i, [123] + (fields[0].before + FieldsText(fields)))
    requires i + |fields[0].before + FieldsText(fields)| + 1 < |t|
    ensures ParseValue(t, i, depth) ==
            if depth + 1 <= MAX_DEPTH && Fits(depth + 2, DepthOfFields(fields)) then
              Some((Object(members), i + |fields[0].before + FieldsText(fields)| + 1))
            else None
    ensures Fits(depth + 2, DepthOfFields(fields)) ==> DenoteFields(fields, members)
    decreases fields, 3
  {
    hide ParseValue, ParseObject, ParseMembers, At, FieldsText, DenoteFields, DepthOfFields, Fits, Blank;
    FieldsFirst(fields);
    EndsElement(QUOTE);
    GapAndTail(t, i, [123], fields[0].before, FieldsText(fields));
    AtByte(t, i, 123);
    OpensContainer(t, i, depth);
    ObjectStarts(t, i, depth + 1);
    members := FieldsAreRead(t, i + 1 + |fields[0].before|, fields, depth + 1);
  }

  /** A key in the text: its closing quote, and what it decodes to. */
  lemma KeyIsRead(t: seq<byte>, i: nat, chars: seq<Char>)
    requires Terminated(t) && GoodChars(chars) && At(t, i, Literal(chars)) && i + |Literal(chars)| < |t|
    ensures t[i] == QUOTE && ClosingQuote(t, i + 1) == Some(i + |Literal(chars)| - 1)
    ensures var text := t[i + 1..i + |Literal(chars)| - 1]; GoodText(text) && ReadsAs(Decoded(text), chars)
  {
    hide ClosingQuote, Decoded, GoodText, AreChars, AllSpelled, ReadsAs;
    var e := AllSpelled(chars);
    AtConcat(t, i, [QUOTE] + e, [QUOTE]);
    AtConcat(t, i, [QUOTE], e);
    AtByte(t, i, QUOTE);
    AtByte(t, i + 1 + |e|, QUOTE);
    SpelledTextIsClosed(t, i + 1, chars);
    TextIsMeant(chars);
  }

  lemma {:induction false} FieldIsRead(t: seq<byte>, i: nat, f: Field, depth: nat) returns (m: Member)
    requires Terminated(t) && GoodAround(f) && Good(f.doc) && At(t, i, FieldText(f))
    requires i + |FieldText(f)| < |t| && Stops(t[i + |FieldText(f)|])
    ensures ParseMember(t, i, depth) ==
            if Fits(depth + 1, Depth(f.doc)) then Some((m, i + |FieldText(f)|)) else None
    ensures Fits(depth + 1, Depth(f.doc)) ==> ReadsAs(m.key, f.key) && Denotes(f.doc, m.value)
    decreases f, 2
  {
    hide ParseValue, ParseMember, At, Text, Denotes, Depth, Fits, Blank, Stops, Good, GoodChars, Literal, ReadsAs,
      ClosingQuote, Decoded, GoodText;
    var key, value := Literal(f.key), Text(f.doc);
    DocFirst(f.doc);
    EndsElement(58);
    GapAndTail(t, i, key, f.left, [58] + (f.right + value));
    var colon := i + |key| + |f.left|;
    GapAndTail(t, colon, [58], f.right, value);
    KeyIsRead(t, i, f.key);
    LiteralIsLong(f.key);
    var start := colon + 1 + |f.right|;
    var v := DocIsRead(t, start, f.doc, depth + 1);
    MemberNext(t, i, depth);
    m := Member(Decoded(t[i + 1..i + |key| - 1]), v);
  }

  lemma LiteralIsLong(chars: seq<Char>)
    requires GoodChars(chars)
    ensures |Literal(chars)| >= 2
  {
  }

  lemma {:induction false} FieldsAreRead(t: seq<byte>, i: nat, fields: seq<Field>, depth: nat)
    returns (members: seq<Member>)
    requires Terminated(t) && fields != [] && GoodFields(fields)
    requires At(t, i, FieldsText(fields)) && i + |FieldsText(fields)| < |t|
    ensures ParseMembers(t, i, depth) ==
            if Fits(depth + 1, DepthOfFields(fields)) then Some((members, i + |FieldsText(fields)|)) else None
    ensures Fits(depth + 1, DepthOfFields(fields)) ==> DenoteFields(fields, members)
    decreases fields, 2
  {
    hide ParseMember, ParseMembers, At, FieldText, FieldsText, Denotes, DenoteFields, DepthOfFields, Depth, Fits, Blank,
      Blanks, Stops, Good, ReadsAs, SkipBlanks;
    FieldsTextIs(fields);
    var rest, head, gap := fields[1..], FieldText(fields[0]), fields[0].after;
    var tail := if |fields| == 1 then [125] else [44] + (fields[1].before + FieldsText(rest));
    EndsElement(tail[0]);
    GapAndTail(t, i, head, gap, tail);
    EndsElement(t[i + |head|]);
    FitsFields(fields, depth + 1);
    NoneFit(depth + 1);
    MembersNext(t, i, depth);
    var m := FieldIsRead(t, i, fields[0], depth);
    if rest == [] {
      members := [m];
      FieldsDenote(fields, m, []);
      assert [m] + [] == members;
    } else {
      FieldsFirst(rest);
      EndsElement(QUOTE);
      var comma := i + |head| + |gap|;
      GapAndTail(t, comma, [44], rest[0].before, FieldsText(rest));
      var more := FieldsAreRead(t, comma + 1 + |rest[0].before|, rest, depth);
      members := [m] + more;
      FieldsDenote(fields, m, more);
    }
  }

  lemma FieldsTextIs(fields: seq<Field>)
    requires fields != [] && GoodFields(fields)
    ensures FieldsText(fields) ==
            FieldText(fields[0]) + (fields[0].after
              + if |fields| == 1 then [125] else [44] + (fields[1].before + FieldsText(fields[1..])))
  {
    hide FieldText;
  }

  lemma FieldsDenote(fields: seq<Field>, m: Member, more: seq<Member>)
    requires fields != [] && GoodFields(fields)
    ensures DenoteFields(fields, [m] + more) <==>
            ReadsAs(m.key, fields[0].key) && Denotes(fields[0].doc, m.value) && DenoteFields(fields[1..], more)
  {
    hide Denotes, ReadsAs;
    assert ([m] + more)[1..] == more;
  }

  // ----- And nothing else is read -----

  /** What the scan of a literal passed over are spelt characters, none of which ends it. */
  lemma {:induction false} ClosedTextHasChars(t: seq<byte>, i: nat) returns (chars: seq<Char>)
    requires Terminated(t) && i < |t| && ClosingQuote(t, i).Some?
    ensures GoodChars(chars) && AllSpelled(chars) == t[i..ClosingQuote(t, i).value]
    decreases |t| - i
  {
    hide IsChar, Spelled, GoodUnit, UnitLength, StaysOpen, AllSpelled;
    var close := ClosingQuote(t, i).value;
    NoChars();
    if t[i] == QUOTE {
      chars := [];
    } else {
      var n := UnitAt(t, i);
      var c := UnitIsChar(t[i..close]);
      FirstStaysOpen(c, t[i..close]);
      var rest := ClosedTextHasChars(t, i + n);
      assert t[i..close][..n] + t[i + n..close] == t[i..close];
      chars := [c] + rest;
      CharsCons(c, rest);
    }
  }

  lemma NoChars()
    ensures GoodChars([]) && AllSpelled([]) == []
  {
  }

  lemma CharsCons(c: Char, rest: seq<Char>)
    requires IsChar(c) && StaysOpen(c) && GoodChars(rest)
    ensures GoodChars([c] + rest) && AllSpelled([c] + rest) == Spelled(c) + AllSpelled(rest)
  {
    hide IsChar, StaysOpen, Spelled;
    assert ([c] + rest)[1..] == rest;
  }

  lemma FirstStaysOpen(c: Char, text: seq<byte>)
    requires IsChar(c) && text != [] && Spelled(c) <= text && text[0] != QUOTE && text[0] != NUL
    ensures StaysOpen(c)
  {
    assert Spelled(c)[0] == text[0];
  }

  lemma UnitAt(t: seq<byte>, i: nat) returns (n: nat)
    requires Terminated(t) && i < |t| && ClosingQuote(t, i).Some? && t[i] != QUOTE
    ensures var close := ClosingQuote(t, i).value;
      && i + n <= close && t[i] != NUL && GoodUnit(t[i..close]) && UnitLength(t[i..close]) == n
      && 1 <= n && ClosingQuote(t, i + n) == Some(close)
  {
    n := if t[i] != BACKSLASH then 1 else if t[i + 1] == 117 then 6 else 2;
    var close := ClosingQuote(t, i).value;
    assert ClosingQuote(t, i + n) == Some(close);
    assert forall k :: 0 <= k < n ==> t[i..close][k] == t[i + k];
  }

  lemma LiteralHasChars(t: seq<byte>, i: nat) returns (chars: seq<Char>)
    requires Terminated(t) && i < |t| && t[i] == QUOTE && ClosingQuote(t, i + 1).Some?
    ensures GoodChars(chars) && At(t, i, Literal(chars)) && i + |Literal(chars)| == ClosingQuote(t, i + 1).value + 1
  {
    hide ClosingQuote, AreChars, StaysOpen, AllSpelled;
    chars := ClosedTextHasChars(t, i + 1);
    var close, e := ClosingQuote(t, i + 1).value, AllSpelled(chars);
    assert At(t, i, [QUOTE]) && At(t, i + 1, e) && At(t, close, [QUOTE]);
    hide At;
    AtConcat(t, i, [QUOTE], e);
    AtConcat(t, i, [QUOTE] + e, [QUOTE]);
  }

  lemma ContainerEnds(t: seq<byte>, i: nat, depth: nat)
    requires Terminated(t) && i < |t| && (t[i] == 91 || t[i] == 123)
    ensures t[i] == 91 ==> ParseList(t, i, depth + 1) == ParseValue(t, i, depth)
    ensures t[i] == 123 ==> ParseObject(t, i, depth + 1) == ParseValue(t, i, depth)
  {
    hide ParseList, ParseObject;
  }

  lemma StringEnds(t: seq<byte>, i: nat, depth: nat)
    requires Terminated(t) && i < |t| && t[i] == QUOTE && ParseValue(t, i, depth).Some?
    ensures ClosingQuote(t, i + 1).Some? && ParseValue(t, i, depth).value.1 == ClosingQuote(t, i + 1).value + 1
  {
    hide ClosingQuote, Decoded;
  }

  predicate StartsNumber(c: byte) {
    c != 91 && c != 123 && c != QUOTE && c != 116 && c != 102 && c != 110
  }

  lemma NumberEnds(t: seq<byte>, i: nat, depth: nat)
    requires Terminated(t) && i < |t| && StartsNumber(t[i]) && ParseValue(t, i, depth).Some?
    ensures NumberEnd(t, i, Minus) == Some(ParseValue(t, i, depth).value.1)
  {
    hide NumberEnd, NumberValue;
  }

  /** The text of an accepted value is that of a document. */
  lemma {:induction false} ValueHasDoc(t: seq<byte>, i: nat, depth: nat) returns (doc: Doc)
    requires Terminated(t) && i < |t| && ParseValue(t, i, depth).Some?
    ensures Good(doc) && At(t, i, Text(doc)) && ParseValue(t, i, depth).value.1 == i + |Text(doc)|
    ensures doc.NumberDoc? ==> Stops(t[i + |Text(doc)|])
    decreases |t| - i, 3
  {
    hide ParseValue, ParseList, ParseObject, At, Stops, Text, Good;
    if t[i] == 91 {
      ContainerEnds(t, i, depth);
      doc := ListHasDoc(t, i, depth + 1);
    } else if t[i] == 123 {
      ContainerEnds(t, i, depth);
      doc := ObjectHasDoc(t, i, depth + 1);
    } else if t[i] == QUOTE {
      doc := StringHasDoc(t, i, depth);
    } else if t[i] == 116 || t[i] == 102 || t[i] == 110 {
      doc := WordHasDoc(t, i, depth);
    } else {
      doc := NumberHasDoc(t, i, depth);
    }
  }

  lemma StringHasDoc(t: seq<byte>, i: nat, depth: nat) returns (doc: Doc)
    requires Terminated(t) && i < |t| && t[i] == QUOTE && ParseValue(t, i, depth).Some?
    ensures Good(doc) && At(t, i, Text(doc)) && ParseValue(t, i, depth).value.1 == i + |Text(doc)| && !doc.NumberDoc?
  {
    hide ParseValue, ClosingQuote, At, GoodChars, Literal, Text, Good;
    StringEnds(t, i, depth);
    var chars := LiteralHasChars(t, i);
    doc := StringDoc(chars);
    TextOfString(chars);
  }

  lemma NumberHasDoc(t: seq<byte>, i: nat, depth: nat) returns (doc: Doc)
    requires Terminated(t) && i < |t| && StartsNumber(t[i]) && ParseValue(t, i, depth).Some?
    ensures Good(doc) && At(t, i, Text(doc)) && ParseValue(t, i, depth).value.1 == i + |Text(doc)|
    ensures Stops(t[i + |Text(doc)|])
  {
    hide ParseValue, NumberEnd, At, GoodParts, PartsText, Stops, Text, Good;
    NumberEnds(t, i, depth);
    var p := NumberHasParts(t, i, ParseValue(t, i, depth).value.1);
    doc := NumberDoc(p);
    TextOfNumber(p);
  }

  lemma WordHasDoc(t: seq<byte>, i: nat, depth: nat) returns (doc: Doc)
    requires Terminated(t) && i < |t| && (t[i] == 116 || t[i] == 102 || t[i] == 110) && ParseValue(t, i, depth).Some?
    ensures Good(doc) && At(t, i, Text(doc)) && ParseValue(t, i, depth).value.1 == i + |Text(doc)| && !doc.NumberDoc?
  {
    hide ParseList, ParseObject, NumberEnd, ClosingQuote, Decoded, NumberValue;
    doc := if t[i] == 116 then TrueDoc else if t[i] == 102 then FalseDoc else NullDoc;
    assert Text(doc) == if t[i] == 116 then TRUE_WORD else if t[i] == 102 then FALSE_WORD else NULL_WORD;
  }

  lemma TextOfString(chars: seq<Char>)
    requires GoodChars(chars)
    ensures Good(StringDoc(chars)) && Text(StringDoc(chars)) == Literal(chars)
  {
    hide Literal;
  }

  lemma TextOfNumber(p: Parts)
    requires GoodParts(p)
    ensures Good(NumberDoc(p)) && Text(NumberDoc(p)) == PartsText(p)
  {
    hide PartsText;
  }

  lemma NumberHasParts(t: seq<byte>, i: nat, e: nat) returns (p: Parts)
    requires Terminated(t) && i < |t| && NumberEnd(t, i, Minus) == Some(e)
    ensures GoodParts(p) && At(t, i, PartsText(p)) && e == i + |PartsText(p)| < |t| && Stops(t[e])
  {
    hide NumberEnd, GoodParts, PartsText, Stops;
    NumberIsScanned(t, i, e);
    p :| GoodParts(p) && PartsText(p) == t[i..e];
  }

  lemma OpensAt(t: seq<byte>, i: nat, gap: seq<byte>, rest: seq<byte>)
    requires i + 1 + |gap| <= |t| && t[i + 1..i + 1 + |gap|] == gap && At(t, i + 1 + |gap|, rest)
    ensures At(t, i, [t[i]] + (gap + rest))
  {
    AtSlice(t, i + 1, i + 1 + |gap|);
    AtByte(t, i, t[i]);
    hide At;
    AtConcat(t, i + 1, gap, rest);
    AtConcat(t, i, [t[i]], gap + rest);
  }

  lemma ClosesAt(t: seq<byte>, i: nat, gap: seq<byte>, close: byte)
    requires i + 1 + |gap| < |t| && t[i + 1..i + 1 + |gap|] == gap && t[i + 1 + |gap|] == close
    ensures At(t, i, [t[i]] + gap + [close])
  {
    AtByte(t, i + 1 + |gap|, close);
    OpensAt(t, i, gap, [close]);
    hide At;
    assert [t[i]] + gap + [close] == [t[i]] + (gap + [close]);
  }

  lemma TextOfEmpty(gap: seq<byte>)
    requires Blanks(gap)
    ensures Good(EmptyList(gap)) && Text(EmptyList(gap)) == [91] + gap + [93]
    ensures Good(EmptyObject(gap)) && Text(EmptyObject(gap)) == [123] + gap + [125]
  {
  }

  lemma TextOfList(items: seq<Item>)
    requires items != [] && GoodItems(items)
    ensures Good(ListDoc(items)) && Text(ListDoc(items)) == [91] + (items[0].before + ItemsText(items))
  {
    hide GoodItems, ItemsText;
  }

  lemma TextOfObject(fields: seq<Field>)
    requires fields != [] && GoodFields(fields)
    ensures Good(ObjectDoc(fields)) && Text(ObjectDoc(fields)) == [123] + (fields[0].before + FieldsText(fields))
  {
    hide GoodFields, FieldsText;
  }

  lemma ListEnds(t: seq<byte>, i: nat, depth: nat)
    requires Terminated(t) && i < |t| && t[i] == 91 && ParseList(t, i, depth).Some?
    ensures var j := SkipBlanks(t, i + 1);
      if t[j] == 93 then ParseList(t, i, depth).value.1 == j + 1
      else ParseItems(t, j, depth).Some? && ParseItems(t, j, depth).value.1 == ParseList(t, i, depth).value.1
  {
    hide ParseItems;
  }

  lemma {:induction false} ListHasDoc(t: seq<byte>, i: nat, depth: nat) returns (doc: Doc)
    requires Terminated(t) && i < |t| && t[i] == 91 && ParseList(t, i, depth).Some?
    ensures Good(doc) && At(t, i, Text(doc)) && ParseList(t, i, depth).value.1 == i + |Text(doc)| && !doc.NumberDoc?
    decreases |t| - i, 2
  {
    ListEnds(t, i, depth);
    hide ParseList, ParseItems, At, Blank, Blanks, IsBlank, SkipBlanks, ItemsText, GoodItems, Good, Text;
    var j := SkipBlanks(t, i + 1);
    var gap := t[i + 1..j];
    SkippedIsGap(t, i + 1);
    if t[j] == 93 {
      doc := EmptyList(gap);
      TextOfEmpty(gap);
      ClosesAt(t, i, gap, 93);
    } else {
      var items := ItemsHaveDocs(t, j, depth, gap);
      doc := ListDoc(items);
      TextOfList(items);
      OpensAt(t, i, gap, ItemsText(items));
    }
  }

  /** One or more elements and the bracket; `before` are the blanks in front of the first. */
  lemma {:induction false} ItemsHaveDocs(t: seq<byte>, i: nat, depth: nat, before: seq<byte>)
    returns (items: seq<Item>)
    requires Terminated(t) && i < |t| && ParseItems(t, i, depth).Some? && Blanks(before)
    ensures items != [] && items[0].before == before && GoodItems(items)
    ensures At(t, i, ItemsText(items)) && ParseItems(t, i, depth).value.1 == i + |ItemsText(items)|
    decreases |t| - i, 4
  {
    hide ParseValue, ParseItems, Blanks, At, Text, Good, Stops, Blank, IsBlank, SkipBlanks, ItemsText, GoodItems;
    ItemsNext(t, i, depth);
    var doc := ValueHasDoc(t, i, depth + 1);
    var end := i + |Text(doc)|;
    var j := SkipBlanks(t, end);
    SkippedIsGap(t, end);
    var gap := t[end..j];
    AtSlice(t, end, j);
    AtByte(t, j, 93);
    AtByte(t, j, 44);
    if t[j] == 93 {
      items := [Item(before, doc, gap)];
      OneItem(before, doc, gap);
      JoinAt(t, i, Text(doc), gap, [93]);
    } else {
      var k := SkipBlanks(t, j + 1);
      SkippedIsGap(t, j + 1);
      var space := t[j + 1..k];
      AtSlice(t, j + 1, k);
      var rest := ItemsHaveDocs(t, k, depth, space);
      items := [Item(before, doc, gap)] + rest;
      MoreItems(before, doc, gap, rest);
      JoinAt(t, j, [44], space, ItemsText(rest));
      JoinAt(t, i, Text(doc), gap, [44] + (space + ItemsText(rest)));
    }
  }

  lemma AtSlice(t: seq<byte>, i: nat, j: nat)
    requires i <= j <= |t|
    ensures At(t, i, t[i..j])
  {
  }

  lemma OneItem(before: seq<byte>, doc: Doc, after: seq<byte>)
    requires Blanks(before) && Good(doc) && Blanks(after)
    ensures var items := [Item(before, doc, after)];
      GoodItems(items) && ItemsText(items) == Text(doc) + (after + [93])
  {
    hide Blanks, Text, Good;
  }

  lemma MoreItems(before: seq<byte>, doc: Doc, after: seq<byte>, rest: seq<Item>)
    requires Blanks(before) && Good(doc) && Blanks(after) && rest != [] && GoodItems(rest)
    ensures var items := [Item(before, doc, after)] + rest;
      GoodItems(items) && ItemsText(items) == Text(doc) + (after + ([44] + (rest[0].before + ItemsText(rest))))
  {
    hide Blanks, Text, Good;
    var items := [Item(before, doc, after)] + rest;
    assert items[1..] == rest;
  }

  lemma ObjectEnds(t: seq<byte>, i: nat, depth: nat)
    requires Terminated(t) && i < |t| && t[i] == 123 && ParseObject(t, i, depth).Some?
    ensures var j := SkipBlanks(t, i + 1);
      if t[j] == 125 then ParseObject(t, i, depth).value.1 == j + 1
      else ParseMembers(t, j, depth).Some? && ParseMembers(t, j, depth).value.1 == ParseObject(t, i, depth).value.1
  {
    hide ParseMembers;
  }

  lemma {:induction false} ObjectHasDoc(t: seq<byte>, i: nat, depth: nat) returns (doc: Doc)
    requires Terminated(t) && i < |t| && t[i] == 123 && ParseObject(t, i, depth).Some?
    ensures Good(doc) && At(t, i, Text(doc)) && ParseObject(t, i, depth).value.1 == i + |Text(doc)| && !doc.NumberDoc?
    decreases |t| - i, 2
  {
    ObjectEnds(t, i, depth);
    hide ParseObject, ParseMembers, At, Blank, Blanks, IsBlank, SkipBlanks, FieldsText, GoodFields, Good, Text;
    var j := SkipBlanks(t, i + 1);
    var gap := t[i + 1..j];
    SkippedIsGap(t, i + 1);
    if t[j] == 125 {
      doc := EmptyObject(gap);
      TextOfEmpty(gap);
      ClosesAt(t, i, gap, 125);
    } else {
      var fields := FieldsHaveDocs(t, j, depth, gap);
      doc := ObjectDoc(fields);
      TextOfObject(fields);
      OpensAt(t, i, gap, FieldsText(fields));
    }
  }

  /** A member, with blanks given for around it. */
  lemma {:induction false} FieldHasDoc(t: seq<byte>, i: nat, depth: nat, before: seq<byte>) returns (f: Field)
    requires Terminated(t) && i < |t| && ParseMember(t, i, depth).Some? && Blanks(before)
    ensures f.before == before && f.after == [] && GoodAround(f) && Good(f.doc)
    ensures At(t, i, FieldText(f)) && ParseMember(t, i, depth).value.1 == i + |FieldText(f)|
    decreases |t| - i, 4
  {
    hide ParseValue, ParseMember, ClosingQuote, Blank, IsBlank, At, Text, Good, GoodChars, Literal, Decoded, GoodText, Stops;
    MemberNext(t, i, depth);
    var key := LiteralHasChars(t, i);
    var end := i + |Literal(key)|;
    var colon := SkipBlanks(t, end);
    SkippedIsGap(t, end);
    AtSlice(t, end, colon);
    AtByte(t, colon, 58);
    var start := SkipBlanks(t, colon + 1);
    SkippedIsGap(t, colon + 1);
    AtSlice(t, colon + 1, start);
    var doc := ValueHasDoc(t, start, depth + 1);
    f := Field(before, key, t[end..colon], t[colon + 1..start], doc, []);
    JoinAt(t, colon, [58], f.right, Text(doc));
    JoinAt(t, i, Literal(key), f.left, [58] + (f.right + Text(doc)));
  }

  lemma {:induction false} FieldsHaveDocs(t: seq<byte>, i: nat, depth: nat, before: seq<byte>)
    returns (fields: seq<Field>)
    requires Terminated(t) && i < |t| && ParseMembers(t, i, depth).Some? && Blanks(before)
    ensures fields != [] && fields[0].before == before && GoodFields(fields)
    ensures At(t, i, FieldsText(fields)) && ParseMembers(t, i, depth).value.1 == i + |FieldsText(fields)|
    decreases |t| - i, 5
  {
    hide ParseMember, ParseMembers, Blanks, At, FieldText, FieldsText, GoodFields, Good, Blank, IsBlank, GoodChars, SkipBlanks;
    MembersNext(t, i, depth);
    var f := FieldHasDoc(t, i, depth, before);
    var text, end := FieldText(f), i + |FieldText(f)|;
    var j := SkipBlanks(t, end);
    SkippedIsGap(t, end);
    var gap := t[end..j];
    AtSlice(t, end, j);
    AtByte(t, j, 125);
    AtByte(t, j, 44);
    FieldAfter(f, gap);
    f := f.(after := gap);
    if t[j] == 125 {
      fields := [f];
      OneField(f);
      JoinAt(t, i, text, gap, [125]);
    } else {
      var k := SkipBlanks(t, j + 1);
      SkippedIsGap(t, j + 1);
      var space := t[j + 1..k];
      AtSlice(t, j + 1, k);
      var rest := FieldsHaveDocs(t, k, depth, space);
      fields := [f] + rest;
      MoreFields(f, rest);
      JoinAt(t, j, [44], space, FieldsText(rest));
      JoinAt(t, i, text, gap, [44] + (space + FieldsText(rest)));
    }
  }

  lemma FieldAfter(f: Field, gap: seq<byte>)
    requires GoodAround(f) && Good(f.doc) && Blanks(gap)
    ensures GoodAround(f.(after := gap)) && FieldText(f.(after := gap)) == FieldText(f)
  {
    hide Blanks, GoodChars, Good, Text, Literal;
  }

  lemma OneField(f: Field)
    requires GoodAround(f) && Good(f.doc)
    ensures GoodFields([f]) && FieldsText([f]) == FieldText(f) + (f.after + [125])
  {
    hide GoodAround, FieldText, Good;
  }

  lemma MoreFields(f: Field, rest: seq<Field>)
    requires GoodAround(f) && Good(f.doc) && rest != [] && GoodFields(rest)
    ensures var fields := [f] + rest;
      GoodFields(fields) && FieldsText(fields) == FieldText(f) + (f.after + ([44] + (rest[0].before + FieldsText(rest))))
  {
    hide GoodAround, FieldText, Good;
    assert ([f] + rest)[1..] == rest;
  }

  /** The document stands at `i`, and nothing after it would continue a number. */
  predicate StandsAt(t: seq<byte>, i: nat, doc: Doc) {
    && Good(doc) && At(t, i, Text(doc)) && i + |Text(doc)| < |t|
    && (doc.NumberDoc? ==> Stops(t[i + |Text(doc)|]))
  }

  /** A value is accepted exactly where a document that fits the depth stands, and is what that document denotes. */
  lemma ValueIsDocument(t: seq<byte>, i: nat, depth: nat)
    requires Terminated(t) && i < |t|
    ensures ParseValue(t, i, depth).Some? <==> exists doc :: StandsAt(t, i, doc) && Fits(depth, Depth(doc))
    ensures forall doc :: StandsAt(t, i, doc) && Fits(depth, Depth(doc)) ==>
              && ParseValue(t, i, depth).Some?
              && Denotes(doc, ParseValue(t, i, depth).value.0) && ParseValue(t, i, depth).value.1 == i + |Text(doc)|
  {
    hide ParseValue, Good, Text, Denotes, At, Stops, Fits, Depth;
    forall doc | StandsAt(t, i, doc) && Fits(depth, Depth(doc))
      ensures ParseValue(t, i, depth).Some?
      ensures Denotes(doc, ParseValue(t, i, depth).value.0) && ParseValue(t, i, depth).value.1 == i + |Text(doc)|
    {
      var v := DocIsRead(t, i, doc, depth);
    }
    if ParseValue(t, i, depth).Some? {
      var doc := ValueHasDoc(t, i, depth);
      var v := DocIsRead(t, i, doc, depth);
      assert StandsAt(t, i, doc);
    }
  }

  /** The buffer up to its first NUL is one document with blanks around it. */
  predicate IsDocument(t: seq<byte>, before: seq<byte>, doc: Doc, after: seq<byte>) {
    Blanks(before) && Good(doc) && Blanks(after) && At(t, 0, before + (Text(doc) + (after + [NUL])))
  }

  /** The whole parser: it accepts exactly the documents nested at most 5000 deep, and gives what they denote. */
  lemma TextIsDocument(t: seq<byte>)
    requires Terminated(t)
    ensures ParseDocument(t).Some? <==> exists before, doc, after :: IsDocument(t, before, doc, after) && Depth(doc) <= 5000
    ensures forall before, doc, after :: IsDocument(t, before, doc, after) && Depth(doc) <= 5000 ==>
              ParseDocument(t).Some? && Denotes(doc, ParseDocument(t).value)
  {
    hide ParseDocument, Text, Good, At, Blanks, Denotes, Depth;
    forall before, doc, after | IsDocument(t, before, doc, after) && Depth(doc) <= 5000
      ensures ParseDocument(t).Some? && Denotes(doc, ParseDocument(t).value)
    {
      DocumentIsRead(t, before, doc, after);
    }
    if ParseDocument(t).Some? {
      var before, doc, after := DocumentHasDoc(t);
    }
  }

  lemma DocumentIsRead(t: seq<byte>, before: seq<byte>, doc: Doc, after: seq<byte>)
    requires Terminated(t) && IsDocument(t, before, doc, after) && Depth(doc) <= 5000
    ensures ParseDocument(t).Some? && Denotes(doc, ParseDocument(t).value)
  {
    hide ParseValue, Good, Text, Denotes, At, Stops, Depth, Blank, Blanks, SkipBlanks;
    var text, end := Text(doc), |before| + |Text(doc)|;
    DocFirst(doc);
    NulEnds();
    assert before + (text + (after + [NUL])) == [] + (before + (text + (after + [NUL])));
    assert (text + (after + [NUL]))[0] == text[0];
    GapAndTail(t, 0, [], before, text + (after + [NUL]));
    GapAndTail(t, |before|, text, after, [NUL]);
    EndsElement(t[end]);
    var v := DocIsRead(t, |before|, doc, 0);
  }

  lemma NulEnds()
    ensures !Blank(NUL) && Stops(NUL)
  {
    DecIsDigit(NUL);
  }

  lemma DocumentHasDoc(t: seq<byte>) returns (before: seq<byte>, doc: Doc, after: seq<byte>)
    requires Terminated(t) && ParseDocument(t).Some?
    ensures IsDocument(t, before, doc, after) && Depth(doc) <= 5000
  {
    hide ParseValue, Good, Text, Denotes, At, Stops, Depth, Blank, Blanks, IsBlank, SkipBlanks;
    var start := SkipBlanks(t, 0);
    SkippedIsGap(t, 0);
    AtSlice(t, 0, start);
    doc := ValueHasDoc(t, start, 0);
    var v := DocIsRead(t, start, doc, 0);
    var end := start + |Text(doc)|;
    var stop := SkipBlanks(t, end);
    SkippedIsGap(t, end);
    AtSlice(t, end, stop);
    AtByte(t, stop, NUL);
    before, after := t[..start], t[end..stop];
    JoinAt(t, start, Text(doc), after, [NUL]);
    AtConcat(t, 0, before, Text(doc) + (after + [NUL]));
  }
}
