/** What the printer writes, the parser reads back; the only limit is how deep containers nest. */
module JsonRoundTrip {
  import opened Bytes
  import opened Options
  import opened JsonEscapes
  import opened JsonStrings
  import opened JsonNumbers
  import opened JsonValues

  /** Whether the depth counter, which grows by two a container, stays within its limit. */
  predicate Fits(depth: nat, nesting: nat) {
    nesting == 0 || depth + 2 * nesting - 1 <= MAX_DEPTH
  }

  /** A byte that can follow a value without becoming part of it. */
  predicate Ends(c: byte) {
    c == 44 || c == 93 || c == 125 || c == NUL
  }

  /** No printed value starts like a blank or a closing bracket. */
  lemma FirstByte(v: Value)
    requires Printable(v)
    ensures Dump(v) != [] && !IsBlank(Dump(v)[0]) && Dump(v)[0] != 93 && Dump(v)[0] != 125
    ensures v.Number? ==> InNumber(Dump(v)[0])
  {
    match v {
      case Number(n) =>
        IntRoundTrip(n);
        assert IntText(n)[0] in IntText(n);
      case _ =>
    }
  }

  lemma AtConcat(t: seq<byte>, i: nat, a: seq<byte>, b: seq<byte>)
    ensures At(t, i, a + b) <==> At(t, i, a) && At(t, i + |a|, b)
  {
    if At(t, i, a + b) {
      var all := t[i..i + |a| + |b|];
      assert t[i..i + |a|] == all[..|a|];
      assert t[i + |a|..i + |a| + |b|] == all[|a|..];
    }
    if At(t, i, a) && At(t, i + |a|, b) {
      assert t[i..i + |a| + |b|] == t[i..i + |a|] + t[i + |a|..i + |a| + |b|];
    }
  }

  lemma AtByte(t: seq<byte>, i: nat, c: byte)
    ensures At(t, i, [c]) <==> i < |t| && t[i] == c
  {
  }

  lemma AtFirst(t: seq<byte>, i: nat, word: seq<byte>)
    requires At(t, i, word) && word != []
    ensures t[i] == word[0]
  {
    assert t[i] == t[i..i + |word|][0];
  }

  /** A quoted string in the text: its closing quote and what it decodes to. */
  lemma QuotedRoundTrip(t: seq<byte>, i: nat, s: seq<byte>)
    requires Terminated(t) && At(t, i, Quoted(s)) && i + |Quoted(s)| < |t|
    ensures t[i] == QUOTE
    ensures ClosingQuote(t, i + 1) == Some(i + |Quoted(s)| - 1)
    ensures var text := t[i + 1..i + |Quoted(s)| - 1]; GoodText(text) && Decoded(text) == s
  {
    hide Escaped, Decoded, GoodText, ClosingQuote;
    var e := Escaped(s);
    AtConcat(t, i, [QUOTE] + e, [QUOTE]);
    AtConcat(t, i, [QUOTE], e);
    AtByte(t, i, QUOTE);
    AtByte(t, i + 1 + |e|, QUOTE);
    EscapedTextIsClosed(t, i + 1, s);
    EscapeRoundTrip(s);
  }

  /**
   Printing then parsing: at any place of any text, a printed tree is read back whole when it fits the depth that
   is left, and refused when it does not.
   */
  lemma {:induction false} ValueRoundTrip(t: seq<byte>, i: nat, v: Value, depth: nat)
    requires Terminated(t) && Printable(v) && At(t, i, Dump(v))
    requires i + |Dump(v)| < |t| && Ends(t[i + |Dump(v)|])
    ensures ParseValue(t, i, depth) == if Fits(depth, Nesting(v)) then Some((v, i + |Dump(v)|)) else None
    decreases v, 1
  {
    hide ParseValue, ParseList, ParseObject, At, IntText, Quoted;
    NestingFits(v, depth);
    match v {
      case Number(n) =>
        NumberRoundTrip(t, i, n, depth);
      case Str(s) =>
        StringRoundTrip(t, i, s, depth);
      case List(items) =>
        ListRoundTrip(t, i, items, depth + 1);
        OpensContainer(t, i, depth);
      case Object(members) =>
        ObjectRoundTrip(t, i, members, depth + 1);
        OpensContainer(t, i, depth);
      case _ =>
        WordRoundTrip(t, i, v, depth);
    }
  }

  lemma NestingFits(v: Value, depth: nat)
    ensures match v
            case List(items) => Fits(depth, Nesting(v)) <==> depth + 1 <= MAX_DEPTH && Fits(depth + 2, NestingOfItems(items))
            case Object(members) =>
              Fits(depth, Nesting(v)) <==> depth + 1 <= MAX_DEPTH && Fits(depth + 2, NestingOfMembers(members))
            case _ => Fits(depth, Nesting(v))
  {
  }

  lemma OpensContainer(t: seq<byte>, i: nat, depth: nat)
    requires Terminated(t) && i < |t| && (t[i] == 91 || t[i] == 123)
    ensures ParseValue(t, i, depth) == if t[i] == 91 then ParseList(t, i, depth + 1) else ParseObject(t, i, depth + 1)
  {
    hide ParseList, ParseObject;
  }

  lemma WordRoundTrip(t: seq<byte>, i: nat, v: Value, depth: nat)
    requires Terminated(t) && (v == Null || v == True || v == False) && At(t, i, Dump(v)) && i + |Dump(v)| < |t|
    ensures ParseValue(t, i, depth) == Some((v, i + |Dump(v)|))
  {
    hide ParseList, ParseObject, NumberEnd, ClosingQuote;
    AtFirst(t, i, Dump(v));
  }

  lemma NumberRoundTrip(t: seq<byte>, i: nat, n: int, depth: nat)
    requires Terminated(t) && At(t, i, IntText(n))
    requires i + |IntText(n)| < |t| && Ends(t[i + |IntText(n)|])
    ensures ParseValue(t, i, depth) == Some((Number(n), i + |IntText(n)|))
  {
    hide NumberEnd, IntOf, IntText;
    FirstByte(Number(n));
    AtFirst(t, i, IntText(n));
    ScanInt(t, i, n);
    IntRoundTrip(n);
  }

  /** A literal of any characters, escaped in any way, is read as a string that means exactly those characters. */
  lemma LiteralIsMeant(t: seq<byte>, i: nat, cs: seq<Char>, depth: nat) returns (text: seq<byte>)
    requires AreChars(cs) && forall k :: 0 <= k < |cs| ==> StaysOpen(cs[k])
    requires Terminated(t) && At(t, i, [QUOTE] + AllSpelled(cs) + [QUOTE]) && i + |AllSpelled(cs)| + 2 < |t|
    ensures ParseValue(t, i, depth) == Some((Str(text), i + |AllSpelled(cs)| + 2)) && ReadsAs(text, cs)
  {
    hide ParseList, ParseObject, NumberEnd, ClosingQuote, Decoded, GoodText, AreChars, AllSpelled, ReadsAs;
    var e := AllSpelled(cs);
    AtConcat(t, i, [QUOTE] + e, [QUOTE]);
    AtConcat(t, i, [QUOTE], e);
    AtByte(t, i, QUOTE);
    AtByte(t, i + 1 + |e|, QUOTE);
    SpelledTextIsClosed(t, i + 1, cs);
    TextIsMeant(cs);
    text := Decoded(e);
  }

  lemma StringRoundTrip(t: seq<byte>, i: nat, s: seq<byte>, depth: nat)
    requires Terminated(t) && At(t, i, Quoted(s)) && i + |Quoted(s)| < |t|
    ensures ParseValue(t, i, depth) == Some((Str(s), i + |Quoted(s)|))
  {
    hide ParseList, ParseObject, NumberEnd, ClosingQuote, Escaped, Decoded, GoodText, At, Quoted;
    QuotedIsLong(s);
    QuotedRoundTrip(t, i, s);
  }

  lemma DumpItemsParts(items: seq<Value>)
    requires items != []
    ensures DumpItems(items, true) == Dump(items[0]) + DumpItems(items[1..], false)
    ensures DumpItems(items, false) == [44] + DumpItems(items, true)
    ensures DumpItems([], true) == DumpItems([], false) == []
  {
    hide Dump;
    var head, tail := Dump(items[0]), DumpItems(items[1..], false);
    assert [44] + (head + tail) == [44] + head + tail;
    assert [] + head + tail == head + tail;
  }

  lemma DumpMembersParts(members: seq<Member>)
    requires members != []
    ensures DumpMembers(members, true) == DumpMember(members[0]) + DumpMembers(members[1..], false)
    ensures DumpMembers(members, false) == [44] + DumpMembers(members, true)
    ensures DumpMembers([], true) == DumpMembers([], false) == []
    ensures DumpMember(members[0]) != [] && DumpMember(members[0])[0] == QUOTE
  {
    hide Dump, Escaped;
    var head, tail := DumpMember(members[0]), DumpMembers(members[1..], false);
    assert [44] + (head + tail) == [44] + head + tail;
    assert [] + head + tail == head + tail;
  }

  lemma {:induction false} ListRoundTrip(t: seq<byte>, i: nat, items: seq<Value>, depth: nat)
    requires Terminated(t) && (forall x <- items :: Printable(x))
    requires At(t, i, Dump(List(items))) && i + |Dump(List(items))| < |t|
    ensures t[i] == 91
    ensures ParseList(t, i, depth) ==
            if depth <= MAX_DEPTH && Fits(depth + 1, NestingOfItems(items)) then
              Some((List(items), i + |Dump(List(items))|))
            else None
    decreases items, 2
  {
    hide Dump, DumpItems, At, ParseItems, ParseList, Nesting, NestingOfItems, Printable;
    DumpContainers(items, []);
    var body := DumpItems(items, true);
    AtConcat(t, i, [91] + body, [93]);
    AtConcat(t, i, [91], body);
    AtByte(t, i, 91);
    AtByte(t, i + 1 + |body|, 93);
    if items == [] {
      DumpItemsParts([Null]);
      NoItemsNoNesting();
      OpenList(t, i, depth);
    } else {
      DumpItemsParts(items);
      FirstByte(items[0]);
      AtFirst(t, i + 1, body);
      OpenList(t, i, depth);
      ItemsRoundTrip(t, i + 1, items, depth);
    }
  }

  lemma DumpContainers(items: seq<Value>, members: seq<Member>)
    ensures Dump(List(items)) == [91] + DumpItems(items, true) + [93]
    ensures Dump(Object(members)) == [123] + DumpMembers(members, true) + [125]
  {
  }

  lemma OpenList(t: seq<byte>, i: nat, depth: nat)
    requires Terminated(t) && i < |t| - 1 && t[i] == 91 && !IsBlank(t[i + 1])
    ensures ParseList(t, i, depth) ==
            if depth > MAX_DEPTH then None
            else if t[i + 1] == 93 then Some((List([]), i + 2))
            else
              match ParseItems(t, i + 1, depth)
              case None => None
              case Some((items, end)) => Some((List(items), end))
  {
    hide ParseItems;
  }

  lemma OpenObject(t: seq<byte>, i: nat, depth: nat)
    requires Terminated(t) && i < |t| - 1 && t[i] == 123 && !IsBlank(t[i + 1])
    ensures ParseObject(t, i, depth) ==
            if depth > MAX_DEPTH then None
            else if t[i + 1] == 125 then Some((Object([]), i + 2))
            else
              match ParseMembers(t, i + 1, depth)
              case None => None
              case Some((members, end)) => Some((Object(members), end))
  {
    hide ParseMembers;
  }

  lemma NoItemsNoNesting()
    ensures NestingOfItems([]) == 0 && NestingOfMembers([]) == 0
  {
  }

  lemma NestingParts(items: seq<Value>, depth: nat)
    requires items != []
    ensures Fits(depth, NestingOfItems(items)) <==> Fits(depth, Nesting(items[0])) && Fits(depth, NestingOfItems(items[1..]))
  {
  }

  lemma MemberNestingParts(members: seq<Member>, depth: nat)
    requires members != []
    ensures Fits(depth, NestingOfMembers(members)) <==>
            Fits(depth, Nesting(members[0].value)) && Fits(depth, NestingOfMembers(members[1..]))
  {
  }

  lemma {:induction false} ItemsRoundTrip(t: seq<byte>, i: nat, items: seq<Value>, depth: nat)
    requires Terminated(t) && items != [] && (forall x <- items :: Printable(x))
    requires At(t, i, DumpItems(items, true)) && At(t, i + |DumpItems(items, true)|, [93])
    requires i + |DumpItems(items, true)| + 1 < |t|
    ensures ParseItems(t, i, depth) ==
            if Fits(depth + 1, NestingOfItems(items)) then Some((items, i + |DumpItems(items, true)| + 1)) else None
    decreases items, 1
  {
    hide Dump, DumpItems, At, ParseItems, ParseValue, NestingOfItems, Nesting, Fits, Printable;
    var head, rest := Dump(items[0]), items[1..];
    var tail := DumpItems(rest, false);
    DumpItemsParts(items);
    AtConcat(t, i, head, tail);
    var end := i + |head|;
    AtByte(t, end + |tail|, 93);
    NestingParts(items, depth + 1);
    ItemsNext(t, i, depth);
    if rest == [] {
      ValueRoundTrip(t, i, items[0], depth + 1);
      NoItemsFit(depth + 1);
      assert items == [items[0]];
    } else {
      var after := DumpItems(rest, true);
      DumpItemsParts(rest);
      AtConcat(t, end, [44], after);
      AtByte(t, end, 44);
      FirstByte(rest[0]);
      AtFirst(t, end + 1, after);
      ValueRoundTrip(t, i, items[0], depth + 1);
      ItemsRoundTrip(t, end + 1, rest, depth);
      assert [items[0]] + rest == items;
    }
  }

  lemma NoItemsFit(depth: nat)
    ensures Fits(depth, NestingOfItems([])) && Fits(depth, NestingOfMembers([]))
    ensures DumpItems([], false) == [] && DumpMembers([], false) == []
  {
  }

  lemma {:induction false} ObjectRoundTrip(t: seq<byte>, i: nat, members: seq<Member>, depth: nat)
    requires Terminated(t) && (forall m <- members :: Printable(m.value))
    requires At(t, i, Dump(Object(members))) && i + |Dump(Object(members))| < |t|
    ensures t[i] == 123
    ensures ParseObject(t, i, depth) ==
            if depth <= MAX_DEPTH && Fits(depth + 1, NestingOfMembers(members)) then
              Some((Object(members), i + |Dump(Object(members))|))
            else None
    decreases members, 3
  {
    hide Dump, DumpMembers, DumpMember, At, ParseMembers, ParseObject, Nesting, NestingOfMembers, Printable;
    DumpContainers([], members);
    var body := DumpMembers(members, true);
    AtConcat(t, i, [123] + body, [125]);
    AtConcat(t, i, [123], body);
    AtByte(t, i, 123);
    AtByte(t, i + 1 + |body|, 125);
    if members == [] {
      DumpMembersParts([Member([], Null)]);
      NoItemsNoNesting();
      OpenObject(t, i, depth);
    } else {
      DumpMembersParts(members);
      AtFirst(t, i + 1, body);
      OpenObject(t, i, depth);
      MembersRoundTrip(t, i + 1, members, depth);
    }
  }

  lemma {:induction false} MemberRoundTrip(t: seq<byte>, i: nat, m: Member, depth: nat)
    requires Terminated(t) && Printable(m.value) && At(t, i, DumpMember(m))
    requires i + |DumpMember(m)| < |t| && Ends(t[i + |DumpMember(m)|])
    ensures ParseMember(t, i, depth) ==
            if Fits(depth + 1, Nesting(m.value)) then Some((m, i + |DumpMember(m)|)) else None
    decreases m, 2
  {
    hide Dump, Quoted, At, ParseMember, ParseValue, Printable, ClosingQuote, Decoded, GoodText;
    var key := Quoted(m.key);
    QuotedIsLong(m.key);
    AtConcat(t, i, key + [58], Dump(m.value));
    AtConcat(t, i, key, [58]);
    AtByte(t, i + |key|, 58);
    QuotedRoundTrip(t, i, m.key);
    var start := i + |key| + 1;
    FirstByte(m.value);
    AtFirst(t, start, Dump(m.value));
    MemberNext(t, i, depth);
    ValueRoundTrip(t, start, m.value, depth + 1);
  }

  lemma QuotedIsLong(s: seq<byte>)
    ensures |Quoted(s)| >= 2
  {
  }

  lemma {:induction false} MembersRoundTrip(t: seq<byte>, i: nat, members: seq<Member>, depth: nat)
    requires Terminated(t) && members != [] && (forall m <- members :: Printable(m.value))
    requires At(t, i, DumpMembers(members, true)) && At(t, i + |DumpMembers(members, true)|, [125])
    requires i + |DumpMembers(members, true)| + 1 < |t|
    ensures ParseMembers(t, i, depth) ==
            if Fits(depth + 1, NestingOfMembers(members)) then
              Some((members, i + |DumpMembers(members, true)| + 1))
            else None
    decreases members, 2
  {
    hide Dump, DumpMember, DumpMembers, At, ParseMembers, ParseMember, NestingOfMembers, Nesting, Fits, Printable;
    var head, rest := DumpMember(members[0]), members[1..];
    var tail := DumpMembers(rest, false);
    DumpMembersParts(members);
    AtConcat(t, i, head, tail);
    var end := i + |head|;
    AtByte(t, end + |tail|, 125);
    MemberNestingParts(members, depth + 1);
    MembersNext(t, i, depth);
    if rest == [] {
      NoItemsFit(depth + 1);
      assert members == [members[0]];
      MemberRoundTrip(t, i, members[0], depth);
    } else {
      var after := DumpMembers(rest, true);
      DumpMembersParts(rest);
      AtConcat(t, end, [44], after);
      AtByte(t, end, 44);
      AtFirst(t, end + 1, after);
      MemberRoundTrip(t, i, members[0], depth);
      MembersRoundTrip(t, end + 1, rest, depth);
      assert [members[0]] + rest == members;
    }
  }

  /** A printed tree loads to itself exactly when no more than 5000 containers enclose one another. */
  lemma LoadDump(v: Value)
    requires Printable(v)
    ensures Nesting(v) <= 5000 ==> ParseDocument(Dump(v) + [NUL]) == Some(v)
    ensures Nesting(v) > 5000 ==> ParseDocument(Dump(v) + [NUL]) == None
  {
    var t := Dump(v) + [NUL];
    assert t[..|Dump(v)|] == Dump(v);
    FirstByte(v);
    ValueRoundTrip(t, 0, v, 0);
  }
}
