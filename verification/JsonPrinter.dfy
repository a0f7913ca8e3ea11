/** The printer as the code runs it: text appended to one growing string. */
module JsonPrinter {
  import opened Bytes
  import opened JsonStrings
  import opened JsonNumbers
  import opened JsonValues

  method DumpString(s: seq<byte>, out: seq<byte>) returns (r: seq<byte>)
    ensures r == out + Quoted(s)
  {
    r := out + [QUOTE];
    r := Escape(s, r);
    r := r + [QUOTE];
    assert r == out + ([QUOTE] + Escaped(s) + [QUOTE]);
  }

  method DumpInternal(v: Value, out: seq<byte>) returns (r: seq<byte>)
    ensures r == out + Dump(v)
    decreases v, 1
  {
    hide Escaped, DumpItems, DumpMembers;
    match v {
      case List(items) =>
        r := out + [91];
        r := AppendItems(items, r);
        Joined(out, [91], DumpItems(items, true), [93]);
        r := r + [93];
      case Object(members) =>
        r := out + [123];
        r := AppendMembers(members, r);
        Joined(out, [123], DumpMembers(members, true), [125]);
        r := r + [125];
      case Null =>
        r := out + [110, 117, 108, 108];
      case False =>
        r := out + [102, 97, 108, 115, 101];
      case True =>
        r := out + [116, 114, 117, 101];
      case Number(n) =>
        r := out + IntText(n);
      case Decimal(text) =>
        r := out + text;
      case Str(s) =>
        r := DumpString(s, out);
    }
  }

  method AppendItems(items: seq<Value>, out: seq<byte>) returns (r: seq<byte>)
    ensures r == out + DumpItems(items, true)
    decreases items, 2
  {
    hide Dump;
    r := out;
    var first := true;
    for i := 0 to |items|
      invariant first == (i == 0)
      invariant r + DumpItems(items[i..], first) == out + DumpItems(items, true)
    {
      assert items[i..][1..] == items[i + 1..];
      Joined(r, if first then [] else [44], Dump(items[i]), DumpItems(items[i + 1..], false));
      if !first {
        r := r + [44];
      }
      first := false;
      r := DumpInternal(items[i], r);
    }
  }

  method AppendMembers(members: seq<Member>, out: seq<byte>) returns (r: seq<byte>)
    ensures r == out + DumpMembers(members, true)
    decreases members, 2
  {
    hide Dump, Quoted;
    r := out;
    var first := true;
    for i := 0 to |members|
      invariant first == (i == 0)
      invariant r + DumpMembers(members[i..], first) == out + DumpMembers(members, true)
    {
      assert members[i..][1..] == members[i + 1..];
      Joined(r, if first then [] else [44], DumpMember(members[i]), DumpMembers(members[i + 1..], false));
      if !first {
        r := r + [44];
      }
      first := false;
      Joined(r, Quoted(members[i].key), [58], Dump(members[i].value));
      r := DumpString(members[i].key, r);
      r := r + [58];
      r := DumpInternal(members[i].value, r);
    }
  }

  lemma Joined(a: seq<byte>, b: seq<byte>, c: seq<byte>, d: seq<byte>)
    ensures a + (b + c + d) == a + b + c + d
  {
  }
}
