/** What the nodes of a parsed tree say: each points into the buffer the text was read from. */
module JsonNodes {
  import opened Bytes
  import opened JsonStrings
  import opened JsonNumbers
  import opened JsonValues

  datatype Node =
    | Bad
    | NullNode
    | FalseNode
    | TrueNode
    | NumberNode(start: nat, end: nat)
    | StringNode(start: nat, end: nat)
    | ListNode(nodes: seq<Node>)
    | ObjectNode(entries: seq<Entry>)

  datatype Entry = Entry(keyStart: nat, keyEnd: nat, value: Node)

  /** Everything the node points at lies in `b[..k]` and can be decoded. */
  predicate Sound(b: seq<byte>, x: Node, k: nat) {
    match x
    case Bad => false
    case NumberNode(start, end) => start <= end <= k <= |b|
    case StringNode(start, end) =>
      && 0 < start <= end < k <= |b| && b[end] == NUL
      && (b[start - 1] != 0 ==> GoodText(b[start..end]) && BACKSLASH in b[start..end])
    case ListNode(nodes) => AllSound(b, nodes, k)
    case ObjectNode(entries) => AllEntriesSound(b, entries, k)
    case _ => true
  }

  predicate AllSound(b: seq<byte>, nodes: seq<Node>, k: nat) {
    nodes == [] || (AllSound(b, nodes[..|nodes| - 1], k) && Sound(b, nodes[|nodes| - 1], k))
  }

  predicate EntrySound(b: seq<byte>, e: Entry, k: nat) {
    e.keyStart <= e.keyEnd <= k <= |b| && Sound(b, e.value, k)
  }

  predicate AllEntriesSound(b: seq<byte>, entries: seq<Entry>, k: nat) {
    entries == [] || (AllEntriesSound(b, entries[..|entries| - 1], k) && EntrySound(b, entries[|entries| - 1], k))
  }

  /** The tree a sound node stands for; an escaped string is decoded when it is read. */
  function Denote(b: seq<byte>, x: Node, k: nat): Value
    requires Sound(b, x, k)
  {
    match x
    case NullNode => Null
    case FalseNode => False
    case TrueNode => True
    case NumberNode(start, end) => NumberValue(b[start..end])
    case StringNode(start, end) => Str(if b[start - 1] != 0 then Decoded(b[start..end]) else b[start..end])
    case ListNode(nodes) => List(DenoteAll(b, nodes, k))
    case ObjectNode(entries) => Object(DenoteEntries(b, entries, k))
  }

  function DenoteAll(b: seq<byte>, nodes: seq<Node>, k: nat): seq<Value>
    requires AllSound(b, nodes, k)
  {
    if nodes == [] then [] else DenoteAll(b, nodes[..|nodes| - 1], k) + [Denote(b, nodes[|nodes| - 1], k)]
  }

  function DenoteEntry(b: seq<byte>, e: Entry, k: nat): Member
    requires EntrySound(b, e, k)
  {
    Member(b[e.keyStart..e.keyEnd], Denote(b, e.value, k))
  }

  function DenoteEntries(b: seq<byte>, entries: seq<Entry>, k: nat): seq<Member>
    requires AllEntriesSound(b, entries, k)
  {
    if entries == [] then []
    else DenoteEntries(b, entries[..|entries| - 1], k) + [DenoteEntry(b, entries[|entries| - 1], k)]
  }

  /** Later writes lie at or after `k`, so they change nothing that was read before. */
  lemma {:induction false} NodeStays(b: seq<byte>, c: seq<byte>, x: Node, k: nat, m: nat)
    requires Sound(b, x, k) && k <= m <= |c| && k <= |b| && b[..k] == c[..k]
    ensures Sound(c, x, m) && Denote(c, x, m) == Denote(b, x, k)
    decreases x
  {
    match x {
      case NumberNode(start, end) =>
        SliceOf(b, c, start, end, k);
      case StringNode(start, end) =>
        SliceOf(b, c, start, end, k);
        assert b[end] == b[..k][end] && c[end] == c[..k][end];
        assert b[start - 1] == b[..k][start - 1] && c[start - 1] == c[..k][start - 1];
      case ListNode(nodes) =>
        NodesStay(b, c, nodes, k, m);
      case ObjectNode(entries) =>
        EntriesStay(b, c, entries, k, m);
      case _ =>
    }
  }

  lemma SliceOf(b: seq<byte>, c: seq<byte>, start: nat, end: nat, k: nat)
    requires start <= end <= k <= |b| && k <= |c| && b[..k] == c[..k]
    ensures b[start..end] == c[start..end]
  {
    assert b[start..end] == b[..k][start..end];
    assert c[start..end] == c[..k][start..end];
  }

  lemma {:induction false} NodesStay(b: seq<byte>, c: seq<byte>, nodes: seq<Node>, k: nat, m: nat)
    requires AllSound(b, nodes, k) && k <= m <= |c| && k <= |b| && b[..k] == c[..k]
    ensures AllSound(c, nodes, m) && DenoteAll(c, nodes, m) == DenoteAll(b, nodes, k)
    decreases nodes
  {
    if nodes != [] {
      NodesStay(b, c, nodes[..|nodes| - 1], k, m);
      NodeStays(b, c, nodes[|nodes| - 1], k, m);
    }
  }

  lemma {:induction false} EntriesStay(b: seq<byte>, c: seq<byte>, entries: seq<Entry>, k: nat, m: nat)
    requires AllEntriesSound(b, entries, k) && k <= m <= |c| && k <= |b| && b[..k] == c[..k]
    ensures AllEntriesSound(c, entries, m) && DenoteEntries(c, entries, m) == DenoteEntries(b, entries, k)
    decreases entries
  {
    if entries != [] {
      EntriesStay(b, c, entries[..|entries| - 1], k, m);
      EntryStays(b, c, entries[|entries| - 1], k, m);
    }
  }

  lemma {:induction false} EntryStays(b: seq<byte>, c: seq<byte>, e: Entry, k: nat, m: nat)
    requires EntrySound(b, e, k) && k <= m <= |c| && k <= |b| && b[..k] == c[..k]
    ensures EntrySound(c, e, m) && DenoteEntry(c, e, m) == DenoteEntry(b, e, k)
    decreases e
  {
    NodeStays(b, c, e.value, k, m);
    SliceOf(b, c, e.keyStart, e.keyEnd, k);
  }

  lemma AppendNode(b: seq<byte>, nodes: seq<Node>, x: Node, k: nat)
    requires AllSound(b, nodes, k) && Sound(b, x, k)
    ensures AllSound(b, nodes + [x], k)
    ensures DenoteAll(b, nodes + [x], k) == DenoteAll(b, nodes, k) + [Denote(b, x, k)]
  {
    assert (nodes + [x])[..|nodes|] == nodes;
  }

  lemma AppendEntry(b: seq<byte>, entries: seq<Entry>, e: Entry, k: nat)
    requires AllEntriesSound(b, entries, k) && EntrySound(b, e, k)
    ensures AllEntriesSound(b, entries + [e], k)
    ensures DenoteEntries(b, entries + [e], k) == DenoteEntries(b, entries, k) + [DenoteEntry(b, e, k)]
  {
    assert (entries + [e])[..|entries|] == entries;
  }
}

/** The parser as the code runs it: one cursor over a buffer whose strings it marks and, for keys, decodes in place. */
module JsonParser {
  import opened Bytes
  import opened Options
  import opened JsonStrings
  import opened JsonNumbers
  import opened JsonValues
  import opened JsonNodes

  /** The node and the cursor are what the parse of the original text asks for. */
  ghost predicate Agrees(b: seq<byte>, x: Node, data: nat, expected: Option<(Value, nat)>) {
    match expected
    case None => x.Bad?
    case Some((v, end)) => x != Bad && data == end && Sound(b, x, data) && Denote(b, x, data) == v
  }

  datatype Separation = Closed | Another | Malformed

  /** After a value that ended at `end`: the closing bracket, a comma, or neither; and the cursor behind it. */
  ghost predicate Separated(t: seq<byte>, end: nat, close: byte, r: Separation, data: nat)
    requires Terminated(t) && end < |t|
  {
    var j := SkipBlanks(t, end);
    && (t[j] == close ==> r == Closed && data == j + 1)
    && (t[j] == 44 ==> r == Another && data == SkipBlanks(t, j + 1))
    && (t[j] != close && t[j] != 44 ==> r == Malformed)
  }

  /** The nodes read so far and what is left of the text give the whole list. */
  ghost predicate ItemsSoFar(b: seq<byte>, t: seq<byte>, first: nat, at: nat, depth: nat, nodes: seq<Node>) {
    && Terminated(t) && first < |t| && at < |t|
    && AllSound(b, nodes, at)
    && ParseItems(t, first, depth) == Prepend(DenoteAll(b, nodes, at), ParseItems(t, at, depth))
  }

  ghost predicate MembersSoFar(b: seq<byte>, t: seq<byte>, first: nat, at: nat, depth: nat, entries: seq<Entry>) {
    && Terminated(t) && first < |t| && at < |t|
    && AllEntriesSound(b, entries, at)
    && ParseMembers(t, first, depth) == Prepend(DenoteEntries(b, entries, at), ParseMembers(t, at, depth))
  }

  class Parser {
    const buf: array<byte>
    var data: nat

    /** From the cursor on, the buffer still holds the original text `t`. */
    ghost predicate Valid(t: seq<byte>)
      reads this, buf
    {
      Terminated(t) && buf.Length == |t| && data < |t| && forall k :: data <= k < |t| ==> buf[k] == t[k]
    }

    constructor (buf: array<byte>)
      requires Terminated(buf[..])
      ensures this.buf == buf && data == 0 && Valid(buf[..])
    {
      this.buf := buf;
      data := 0;
    }

    method Consume(c: byte, ghost t: seq<byte>) returns (ok: bool)
      requires Valid(t) && c != NUL
      modifies this`data
      ensures Valid(t) && ok == (t[old(data)] == c) && data == if ok then old(data) + 1 else old(data)
    {
      if buf[data] != c {
        return false;
      }
      data := data + 1;
      return true;
    }

    method WsSkip(ghost t: seq<byte>)
      requires Valid(t)
      modifies this`data
      ensures Valid(t) && data == SkipBlanks(t, old(data))
    {
      while buf[data] == SPACE || buf[data] == TAB || buf[data] == CR || buf[data] == LF
        invariant Valid(t) && SkipBlanks(t, data) == SkipBlanks(t, old(data))
        decreases |t| - data
      {
        data := data + 1;
      }
    }

    /** A backslash and what must follow it. */
    method ScanEscape(ghost t: seq<byte>) returns (ok: bool)
      requires Valid(t) && t[data] == BACKSLASH
      modifies this`data
      ensures Valid(t) && old(data) < data
      ensures ok ==> ClosingQuote(t, old(data)) == ClosingQuote(t, data)
      ensures !ok ==> ClosingQuote(t, old(data)) == None
    {
      hide ClosingQuote;
      ClosingStep(t, data);
      data := data + 1;
      if buf[data] == 117 {
        if !(IsHex(buf[data + 1]) && IsHex(buf[data + 2]) && IsHex(buf[data + 3]) && IsHex(buf[data + 4])) {
          return false;
        }
        data := data + 5;
      } else if buf[data] == QUOTE || buf[data] == BACKSLASH || buf[data] == 47 || buf[data] == 98
                || buf[data] == 102 || buf[data] == 110 || buf[data] == 114 || buf[data] == 116 {
        data := data + 1;
      } else {
        return false;
      }
      return true;
    }

    /** The scan for the closing quote, which also notes whether an escape was met. */
    method ScanLiteral(ghost t: seq<byte>) returns (ok: bool, hasEscaping: byte)
      requires Valid(t)
      modifies this`data
      ensures Valid(t) && old(data) <= data < |t|
      ensures ok == ClosingQuote(t, old(data)).Some?
      ensures ok ==> data == ClosingQuote(t, old(data)).value
      ensures ok ==> (hasEscaping != 0 <==> BACKSLASH in t[old(data)..data])
    {
      hide ClosingQuote;
      ghost var start := data;
      hasEscaping := 0;
      while true
        invariant Valid(t) && start <= data
        invariant ClosingQuote(t, start) == ClosingQuote(t, data)
        invariant hasEscaping != 0 <==> BACKSLASH in t[start..data]
        decreases |t| - data
      {
        ghost var before := data;
        PlainStep(t, data);
        if buf[data] != QUOTE && buf[data] != BACKSLASH && buf[data] != NUL {
          data := data + 1;
        } else if buf[data] == QUOTE {
          return true, hasEscaping;
        } else if buf[data] == BACKSLASH {
          hasEscaping := 1;
          var known := ScanEscape(t);
          if !known {
            return false, hasEscaping;
          }
        } else {
          return false, hasEscaping;
        }
        BackslashSeen(t, start, before, data);
      }
    }

    /** The closing quote becomes a terminator and the opening one says whether there is anything to decode. */
    method DecodeString(ghost t: seq<byte>) returns (r: Node)
      requires Valid(t)
      modifies this`data, buf
      ensures Valid(t) && old(data) <= data < |t|
      ensures buf[..old(data)] == old(buf[..data])
      ensures t[old(data)] != QUOTE || ClosingQuote(t, old(data) + 1) == None ==> r.Bad?
      ensures t[old(data)] == QUOTE && ClosingQuote(t, old(data) + 1).Some? ==>
        var close := ClosingQuote(t, old(data) + 1).value;
        && r == StringNode(old(data) + 1, close)
        && data == close + 1 && Sound(buf[..], r, data)
        && GoodText(t[old(data) + 1..close])
        && Denote(buf[..], r, data) == Str(Decoded(t[old(data) + 1..close]))
    {
      hide GoodText, Decoded, ClosingQuote, Sound, Denote;
      var quoted := Consume(QUOTE, t);
      if !quoted {
        return Bad;
      }
      var start := data;
      ghost var was := buf[..];
      var ok, hasEscaping := ScanLiteral(t);
      if !ok {
        return Bad;
      }
      buf[data] := NUL;
      buf[start - 1] := hasEscaping;
      data := data + 1;
      StringIsRead(t, was, buf[..], start, data - 1, hasEscaping);
      return StringNode(start, data - 1);
    }

    /** The inner loop over digits; the cursor stays on the last of them. */
    method SkipDigits(ghost t: seq<byte>, ghost state: NumberState)
      requires Valid(t) && data + 1 < |t|
      requires state.InDigits? || state.AfterPoint? || state.AfterE? || state.Invalid?
      modifies this`data
      ensures old(data) <= data && data + 1 < |t|
      ensures NumberEnd(t, old(data) + 1, state) == NumberEnd(t, data + 1, state)
    {
      hide NumberEnd;
      ghost var before := data;
      while 48 <= buf[data + 1] <= 57
        invariant before <= data < |t| - 1
        invariant forall k :: before < k <= data ==> IsDigit(t[k])
        decreases |t| - data
      {
        data := data + 1;
      }
      DigitsAreSkipped(t, before + 1, data + 1, state);
    }

    method DecodeNumber(ghost t: seq<byte>) returns (r: Node)
      requires Valid(t)
      modifies this`data
      ensures Valid(t) && old(data) <= data < |t|
      ensures Agrees(buf[..], r, data,
                     match NumberEnd(t, old(data), Minus)
                     case None => None
                     case Some(end) => Some((NumberValue(t[old(data)..end]), end)))
    {
      hide NextState, NumberValue, NumberEnd;
      var start := data;
      var state := Minus;
      while state != Invalid
        invariant start <= data < |t|
        invariant forall k :: start <= k < |t| ==> buf[k] == t[k]
        invariant NumberEnd(t, start, Minus) == NumberEnd(t, data, state)
        decreases |t| - data, if state == Invalid then 0 else 1
      {
        var c := buf[data];
        NumberStep(t, data, state);
        if 49 <= c <= 57 {
          AfterDigit(state, c);
          state := NextState(state, c);
          SkipDigits(t, state);
        } else if InNumber(c) {
          state := NextState(state, c);
        } else {
          if state == ZeroFirst || state == InDigits || state == AfterPoint || state == AfterE {
            assert buf[..][start..data] == t[start..data];
            return NumberNode(start, data);
          }
          return Bad;
        }
        data := data + 1;
      }
      InvalidStays(t, data);
      return Bad;
    }

    method DecodeList(depth: nat, ghost t: seq<byte>) returns (r: Node)
      requires Valid(t)
      modifies this`data, buf
      ensures Valid(t) && old(data) <= data < |t|
      ensures buf[..old(data)] == old(buf[..data])
      ensures Agrees(buf[..], r, data,
                     if t[old(data)] == 91 then ParseList(t, old(data), depth) else None)
      decreases |t| - data, 2
    {
      hide ParseItems, AllSound, DenoteAll;
      ghost var start, was := data, buf[..];
      var bracket := Consume(91, t);
      if !bracket || depth > MAX_DEPTH {
        return Bad;
      }
      WsSkip(t);
      if buf[data] == 93 {
        data := data + 1;
        NoNodes(buf[..], data);
        return ListNode([]);
      }
      ghost var at := data;
      var nodes, ok := DecodeItems(depth, t);
      SamePrefix(was, was, buf[..], start, at);
      r := if ok then ListNode(nodes) else Bad;
    }

    /** What both loops do after a value: the closing bracket, or a comma and the blanks around it. */
    method Separator(close: byte, ghost t: seq<byte>) returns (r: Separation)
      requires Valid(t) && close != 44 && close != NUL
      modifies this`data
      ensures Valid(t) && old(data) <= data < |t|
      ensures Separated(t, old(data), close, r, data)
    {
      hide SkipBlanks;
      WsSkip(t);
      if buf[data] == close {
        data := data + 1;
        return Closed;
      }
      var comma := Consume(44, t);
      if !comma {
        return Malformed;
      }
      WsSkip(t);
      return Another;
    }

    /** The elements of a list, up to and including the closing bracket. */
    method DecodeItems(depth: nat, ghost t: seq<byte>) returns (nodes: seq<Node>, ok: bool)
      requires Valid(t)
      modifies this`data, buf
      ensures Valid(t) && old(data) <= data < |t|
      ensures buf[..old(data)] == old(buf[..data])
      ensures ok == ParseItems(t, old(data), depth).Some?
      ensures ok ==>
        var (items, end) := ParseItems(t, old(data), depth).value;
        data == end && AllSound(buf[..], nodes, data) && DenoteAll(buf[..], nodes, data) == items
      decreases |t| - data, 4
    {
      hide ItemsSoFar, Separated, ParseValue, ParseItems, Sound, AllSound, Denote, DenoteAll;
      ghost var was, first := buf[..], data;
      nodes := [];
      NoItemsRead(was, t, first, depth);
      while true
        invariant Valid(t) && first <= data && buf[..first] == was[..first]
        invariant ItemsSoFar(buf[..], t, first, data, depth, nodes)
        decreases |t| - data
      {
        ghost var at, now := data, buf[..];
        var v := DecodeValue(depth + 1, t);
        SamePrefix(was, now, buf[..], first, at);
        if v == Bad {
          ItemIsBad(now, t, first, at, depth, nodes);
          return nodes, false;
        }
        ghost var end := data;
        var separator := Separator(93, t);
        ItemIsRead(now, buf[..], t, first, at, depth, nodes, v, end, separator, data);
        nodes := nodes + [v];
        if separator != Another {
          return nodes, separator == Closed;
        }
      }
    }

    method DecodeValue(depth: nat, ghost t: seq<byte>) returns (r: Node)
      requires Valid(t)
      modifies this`data, buf
      ensures Valid(t) && old(data) <= data < |t|
      ensures buf[..old(data)] == old(buf[..data])
      ensures Agrees(buf[..], r, data, ParseValue(t, old(data), depth))
      decreases |t| - data, 3
    {
      hide ParseList, ParseObject, GoodText, Decoded, NumberEnd, ClosingQuote, NumberValue, At, Dump;
      Words(t, data);
      if buf[data] == 91 {
        r := DecodeList(depth + 1, t);
      } else if buf[data] == 123 {
        r := DecodeObject(depth + 1, t);
      } else if buf[data] == QUOTE {
        r := DecodeString(t);
      } else if buf[data] == 116 {
        if buf[data + 1] == 114 && buf[data + 2] == 117 && buf[data + 3] == 101 {
          data := data + 4;
          return TrueNode;
        }
        return Bad;
      } else if buf[data] == 102 {
        if buf[data + 1] == 97 && buf[data + 2] == 108 && buf[data + 3] == 115 && buf[data + 4] == 101 {
          data := data + 5;
          return FalseNode;
        }
        return Bad;
      } else if buf[data] == 110 {
        if buf[data + 1] == 117 && buf[data + 2] == 108 && buf[data + 3] == 108 {
          data := data + 4;
          return NullNode;
        }
        return Bad;
      } else {
        r := DecodeNumber(t);
      }
    }

    method DecodeObject(depth: nat, ghost t: seq<byte>) returns (r: Node)
      requires Valid(t)
      modifies this`data, buf
      ensures Valid(t) && old(data) <= data < |t|
      ensures buf[..old(data)] == old(buf[..data])
      ensures Agrees(buf[..], r, data,
                     if t[old(data)] == 123 then ParseObject(t, old(data), depth) else None)
      decreases |t| - data, 2
    {
      hide ParseMembers, AllEntriesSound, DenoteEntries;
      ghost var start, was := data, buf[..];
      var brace := Consume(123, t);
      if !brace || depth > MAX_DEPTH {
        return Bad;
      }
      WsSkip(t);
      if buf[data] == 125 {
        data := data + 1;
        NoEntries(buf[..], data);
        return ObjectNode([]);
      }
      ghost var at := data;
      var entries, ok := DecodeMembers(depth, t);
      SamePrefix(was, was, buf[..], start, at);
      r := if ok then ObjectNode(entries) else Bad;
    }

    /** The members of an object, up to and including the closing brace. */
    method DecodeMembers(depth: nat, ghost t: seq<byte>) returns (entries: seq<Entry>, ok: bool)
      requires Valid(t)
      modifies this`data, buf
      ensures Valid(t) && old(data) <= data < |t|
      ensures buf[..old(data)] == old(buf[..data])
      ensures ok == ParseMembers(t, old(data), depth).Some?
      ensures ok ==>
        var (members, end) := ParseMembers(t, old(data), depth).value;
        && data == end && AllEntriesSound(buf[..], entries, data)
        && DenoteEntries(buf[..], entries, data) == members
      decreases |t| - data, 5
    {
      hide MembersSoFar, Separated, ParseMember, ParseMembers, EntrySound, AllEntriesSound, DenoteEntry, DenoteEntries;
      ghost var was, first := buf[..], data;
      entries := [];
      NoMembersRead(was, t, first, depth);
      while true
        invariant Valid(t) && first <= data && buf[..first] == was[..first]
        invariant MembersSoFar(buf[..], t, first, data, depth, entries)
        decreases |t| - data
      {
        ghost var at, now := data, buf[..];
        var entry, read := DecodeMember(depth, t);
        SamePrefix(was, now, buf[..], first, at);
        if !read {
          MemberIsBad(now, t, first, at, depth, entries);
          return entries, false;
        }
        ghost var end := data;
        var separator := Separator(125, t);
        MemberIsRead(now, buf[..], t, first, at, depth, entries, entry, end, separator, data);
        entries := entries + [entry];
        if separator != Another {
          return entries, separator == Closed;
        }
      }
    }

    /** One turn of the object loop up to its value: the key is decoded in place before the value is read. */
    method DecodeMember(depth: nat, ghost t: seq<byte>) returns (entry: Entry, ok: bool)
      requires Valid(t)
      modifies this`data, buf
      ensures Valid(t) && old(data) <= data < |t|
      ensures buf[..old(data)] == old(buf[..data])
      ensures match ParseMember(t, old(data), depth)
              case None => !ok
              case Some((m, end)) =>
                ok && data == end && EntrySound(buf[..], entry, data) && DenoteEntry(buf[..], entry, data) == m
      decreases |t| - data, 4
    {
      hide ParseValue, ParseMember, ClosingQuote, GoodText, Decoded, Sound, Denote, SkipBlanks, EntrySound, DenoteEntry;
      ghost var start, was := data, buf[..];
      MemberNext(t, start, depth);
      entry, ok := Entry(0, 0, Bad), false;
      var s := DecodeString(t);
      if s == Bad {
        return;
      }
      WsSkip(t);
      var colon := Consume(58, t);
      if !colon {
        return;
      }
      var keyEnd := StringText(s.start, s.end, t);
      ghost var settled := buf[..];
      SamePrefix(was, was, settled, start, start);
      WsSkip(t);
      ghost var at := data;
      var v := DecodeValue(depth + 1, t);
      SamePrefix(was, settled, buf[..], start, at);
      if v == Bad {
        return;
      }
      entry, ok := Entry(s.start, keyEnd, v), true;
      KeyStays(settled, buf[..], entry, at, data);
    }

    /**
     `s()` on a string the parser has read: its text, decoded where it lies. The rest of the buffer stays, and the
     node with its new end still denotes the same string, so reading it again changes nothing.
     */
    method StringText(start: nat, end: nat, ghost t: seq<byte>) returns (keyEnd: nat)
      requires Valid(t) && end < data && Sound(buf[..], StringNode(start, end), end + 1)
      modifies buf
      ensures Valid(t) && start <= keyEnd <= end
      ensures 0 < start && buf[..start - 1] == old(buf[..start - 1])
      ensures Str(buf[start..keyEnd]) == old(Denote(buf[..], StringNode(start, end), end + 1))
      ensures buf[start - 1] == 0 && Sound(buf[..], StringNode(start, keyEnd), end + 1)
      ensures Denote(buf[..], StringNode(start, keyEnd), end + 1) == Str(buf[start..keyEnd])
    {
      hide Sound, Denote, GoodText, Decoded;
      ghost var was := buf[..];
      StringIsSound(was, start, end, end + 1);
      assert buf[start..end] == was[start..end];
      keyEnd := Unescape(buf, start, end);
      assert forall k :: end <= k < |t| ==> buf[k] == buf[end..][k - end] == was[end..][k - end] == was[k];
      assert buf[..][start..keyEnd] == buf[start..keyEnd];
      TextIsRead(was, buf[..], start, end, keyEnd);
    }

    /** A whole document; the node stands for the tree the text denotes, or is bad when there is none. */
    method Parse(ghost t: seq<byte>) returns (r: Node)
      requires Valid(t) && data == 0
      modifies this`data, buf
      ensures Valid(t)
      ensures ParseDocument(t) == None ==> r == Bad
      ensures ParseDocument(t).Some? ==>
        r != Bad && Sound(buf[..], r, data) && Denote(buf[..], r, data) == ParseDocument(t).value
    {
      hide ParseValue, Sound, Denote, SkipBlanks;
      WsSkip(t);
      r := DecodeValue(0, t);
      ghost var end := data;
      WsSkip(t);
      if r != Bad {
        NodeStays(buf[..], buf[..], r, end, data);
        if buf[data] != NUL {
          r := Bad;
        }
      }
    }
  }

  /** `load`: parses a terminated copy of the text, which may hold any bytes. */
  method Load(text: seq<byte>) returns (r: Node, s: array<byte>, parsed: nat)
    ensures fresh(s) && s.Length == |text| + 1 && parsed < s.Length
    ensures ParseDocument(text + [NUL]) == None ==> r == Bad
    ensures ParseDocument(text + [NUL]).Some? ==>
      && r != Bad && Sound(s[..], r, parsed)
      && Denote(s[..], r, parsed) == ParseDocument(text + [NUL]).value
  {
    s := new byte[|text| + 1](i requires 0 <= i <= |text| => if i < |text| then text[i] else NUL);
    assert s[..] == text + [NUL];
    var parser := new Parser(s);
    r := parser.Parse(text + [NUL]);
    parsed := parser.data;
  }

  lemma KeyStays(b: seq<byte>, c: seq<byte>, e: Entry, at: nat, k: nat)
    requires e.keyStart <= e.keyEnd <= at <= |b| == |c| && at <= k <= |c| && b[..at] == c[..at] && Sound(c, e.value, k)
    ensures EntrySound(c, e, k)
    ensures DenoteEntry(c, e, k) == Member(b[e.keyStart..e.keyEnd], Denote(c, e.value, k))
  {
    hide Sound, Denote;
    SliceOf(b, c, e.keyStart, e.keyEnd, at);
  }

  lemma PrependNothing<T>(rest: Option<(seq<T>, nat)>)
    ensures Prepend([], rest) == rest
  {
    if rest.Some? {
      assert [] + rest.value.0 == rest.value.0;
    }
  }

  lemma PrependMore<T>(front: seq<T>, x: T, rest: Option<(seq<T>, nat)>)
    ensures Prepend(front, Prepend([x], rest)) == Prepend(front + [x], rest)
  {
    if rest.Some? {
      assert front + ([x] + rest.value.0) == front + [x] + rest.value.0;
    }
  }

  lemma NoItemsRead(b: seq<byte>, t: seq<byte>, first: nat, depth: nat)
    requires Terminated(t) && first < |t|
    ensures ItemsSoFar(b, t, first, first, depth, [])
  {
    hide ParseItems;
    PrependNothing(ParseItems(t, first, depth));
  }

  lemma ItemIsBad(b: seq<byte>, t: seq<byte>, first: nat, at: nat, depth: nat, nodes: seq<Node>)
    requires ItemsSoFar(b, t, first, at, depth, nodes) && ParseValue(t, at, depth + 1) == None
    ensures ParseItems(t, first, depth) == None
  {
    hide ParseItems;
    ItemsNext(t, at, depth);
  }

  lemma ItemIsRead(
      b: seq<byte>, c: seq<byte>, t: seq<byte>, first: nat, at: nat, depth: nat, nodes: seq<Node>, v: Node, end: nat,
      separator: Separation, data: nat)
    requires ItemsSoFar(b, t, first, at, depth, nodes) && at <= end < |t| == |b| == |c| && b[..at] == c[..at]
    requires Sound(c, v, end) && ParseValue(t, at, depth + 1) == Some((Denote(c, v, end), end))
    requires Separated(t, end, 93, separator, data) && end <= data <= |t|
    ensures separator == Malformed ==> ParseItems(t, first, depth) == None
    ensures separator == Another ==> ItemsSoFar(c, t, first, data, depth, nodes + [v])
    ensures separator == Closed ==>
      && AllSound(c, nodes + [v], data)
      && ParseItems(t, first, depth) == Some((DenoteAll(c, nodes + [v], data), data))
  {
    hide ParseValue, ParseItems, SkipBlanks, Sound, AllSound, Denote, DenoteAll;
    ItemsNext(t, at, depth);
    OneMoreNode(b, c, nodes, v, at, end, data);
    if separator == Another {
      PrependMore(DenoteAll(b, nodes, at), Denote(c, v, end), ParseItems(t, data, depth));
    }
  }

  lemma OneMoreNode(b: seq<byte>, c: seq<byte>, nodes: seq<Node>, v: Node, at: nat, end: nat, data: nat)
    requires AllSound(b, nodes, at) && at <= end <= data <= |b| == |c| && b[..at] == c[..at] && Sound(c, v, end)
    ensures AllSound(c, nodes + [v], data)
    ensures DenoteAll(c, nodes + [v], data) == DenoteAll(b, nodes, at) + [Denote(c, v, end)]
  {
    hide Sound, AllSound, Denote, DenoteAll;
    NodesStay(b, c, nodes, at, end);
    AppendNode(c, nodes, v, end);
    NodesStay(c, c, nodes + [v], end, data);
  }

  lemma NoMembersRead(b: seq<byte>, t: seq<byte>, first: nat, depth: nat)
    requires Terminated(t) && first < |t|
    ensures MembersSoFar(b, t, first, first, depth, [])
  {
    hide ParseMembers;
    PrependNothing(ParseMembers(t, first, depth));
  }

  lemma MemberIsBad(b: seq<byte>, t: seq<byte>, first: nat, at: nat, depth: nat, entries: seq<Entry>)
    requires MembersSoFar(b, t, first, at, depth, entries) && ParseMember(t, at, depth) == None
    ensures ParseMembers(t, first, depth) == None
  {
    hide ParseMembers;
    MembersNext(t, at, depth);
  }

  lemma MemberIsRead(
      b: seq<byte>, c: seq<byte>, t: seq<byte>, first: nat, at: nat, depth: nat, entries: seq<Entry>, e: Entry,
      end: nat, separator: Separation, data: nat)
    requires MembersSoFar(b, t, first, at, depth, entries) && at <= end < |t| == |b| == |c| && b[..at] == c[..at]
    requires EntrySound(c, e, end) && ParseMember(t, at, depth) == Some((DenoteEntry(c, e, end), end))
    requires Separated(t, end, 125, separator, data) && end <= data <= |t|
    ensures separator == Malformed ==> ParseMembers(t, first, depth) == None
    ensures separator == Another ==> MembersSoFar(c, t, first, data, depth, entries + [e])
    ensures separator == Closed ==>
      && AllEntriesSound(c, entries + [e], data)
      && ParseMembers(t, first, depth) == Some((DenoteEntries(c, entries + [e], data), data))
  {
    hide ParseMember, ParseMembers, SkipBlanks, EntrySound, AllEntriesSound, DenoteEntry, DenoteEntries;
    MembersNext(t, at, depth);
    OneMoreEntry(b, c, entries, e, at, end, data);
    if separator == Another {
      PrependMore(DenoteEntries(b, entries, at), DenoteEntry(c, e, end), ParseMembers(t, data, depth));
    }
  }

  lemma OneMoreEntry(b: seq<byte>, c: seq<byte>, entries: seq<Entry>, e: Entry, at: nat, end: nat, data: nat)
    requires AllEntriesSound(b, entries, at) && at <= end <= data <= |b| == |c| && b[..at] == c[..at]
    requires EntrySound(c, e, end)
    ensures AllEntriesSound(c, entries + [e], data)
    ensures DenoteEntries(c, entries + [e], data) == DenoteEntries(b, entries, at) + [DenoteEntry(c, e, end)]
  {
    hide EntrySound, AllEntriesSound, DenoteEntry, DenoteEntries;
    EntriesStay(b, c, entries, at, end);
    AppendEntry(c, entries, e, end);
    EntriesStay(c, c, entries + [e], end, data);
  }

  /** Comparing letter by letter, left to right, never runs past the terminator. */
  lemma Words(t: seq<byte>, i: nat)
    requires Terminated(t) && i < |t|
    ensures At(t, i, Dump(True)) <==>
            i + 4 <= |t| && t[i] == 116 && t[i + 1] == 114 && t[i + 2] == 117 && t[i + 3] == 101
    ensures At(t, i, Dump(False)) <==>
            && i + 5 <= |t| && t[i] == 102 && t[i + 1] == 97 && t[i + 2] == 108 && t[i + 3] == 115
            && t[i + 4] == 101
    ensures At(t, i, Dump(Null)) <==>
            i + 4 <= |t| && t[i] == 110 && t[i + 1] == 117 && t[i + 2] == 108 && t[i + 3] == 108
  {
    var w, f, n := Dump(True), Dump(False), Dump(Null);
    if At(t, i, w) {
      assert t[i..i + 4][0] == t[i] && t[i..i + 4][1] == t[i + 1] && t[i..i + 4][2] == t[i + 2] && t[i..i + 4][3] == t[i + 3];
    }
    if At(t, i, f) {
      assert t[i..i + 5][0] == t[i] && t[i..i + 5][1] == t[i + 1] && t[i..i + 5][2] == t[i + 2] && t[i..i + 5][3] == t[i + 3]
             && t[i..i + 5][4] == t[i + 4];
    }
    if At(t, i, n) {
      assert t[i..i + 4][0] == t[i] && t[i..i + 4][1] == t[i + 1] && t[i..i + 4][2] == t[i + 2] && t[i..i + 4][3] == t[i + 3];
    }
  }

  lemma SamePrefix(was: seq<byte>, now: seq<byte>, b: seq<byte>, first: nat, at: nat)
    requires first <= at <= |was| == |now| == |b| && now[..first] == was[..first] && b[..at] == now[..at]
    ensures b[..first] == was[..first]
  {
    assert b[..first] == b[..at][..first];
    assert now[..first] == now[..at][..first];
  }

  lemma NoNodes(b: seq<byte>, k: nat)
    ensures AllSound(b, [], k) && DenoteAll(b, [], k) == []
    ensures Sound(b, ListNode([]), k) && Denote(b, ListNode([]), k) == List([])
  {
  }

  lemma StringIsSound(b: seq<byte>, start: nat, end: nat, k: nat)
    requires Sound(b, StringNode(start, end), k)
    ensures 0 < start <= end < k <= |b| && b[end] == NUL
    ensures b[start - 1] != 0 ==> GoodText(b[start..end]) && BACKSLASH in b[start..end]
  {
  }

  lemma TextIsRead(was: seq<byte>, b: seq<byte>, start: nat, end: nat, newEnd: nat)
    requires 0 < start <= newEnd <= end < |was| == |b| && Sound(was, StringNode(start, end), end + 1)
    requires was[start - 1] == 0 ==> newEnd == end && b == was
    requires was[start - 1] != 0 ==> b[start..newEnd] == Decoded(was[start..end])
    requires b[start - 1] == 0 && b[newEnd] == NUL
    ensures Denote(was, StringNode(start, end), end + 1) == Str(b[start..newEnd])
    ensures Sound(b, StringNode(start, newEnd), end + 1)
    ensures Denote(b, StringNode(start, newEnd), end + 1) == Str(b[start..newEnd])
  {
    hide GoodText, Decoded;
  }

  lemma NoEntries(b: seq<byte>, k: nat)
    ensures AllEntriesSound(b, [], k) && DenoteEntries(b, [], k) == []
    ensures Sound(b, ObjectNode([]), k) && Denote(b, ObjectNode([]), k) == Object([])
  {
  }

  lemma AfterDigit(state: NumberState, c: byte)
    requires 49 <= c <= 57
    ensures var next := NextState(state, c);
      next.InDigits? || next.AfterPoint? || next.AfterE? || next.Invalid?
  {
  }

  /** The scan of a literal, one unit at a time. */
  lemma NumberStep(t: seq<byte>, i: nat, state: NumberState)
    requires Terminated(t) && i < |t| && !state.Invalid?
    ensures InNumber(t[i]) ==> i + 1 < |t| && NumberEnd(t, i, state) == NumberEnd(t, i + 1, NextState(state, t[i]))
    ensures !InNumber(t[i]) ==> NumberEnd(t, i, state) == if Accepting(state) then Some(i) else None
  {
    hide NextState;
  }

  lemma InvalidStays(t: seq<byte>, i: nat)
    requires Terminated(t) && i < |t|
    ensures NumberEnd(t, i, Invalid) == None
  {
  }

  lemma PlainStep(t: seq<byte>, i: nat)
    requires Terminated(t) && i < |t|
    ensures t[i] == QUOTE ==> ClosingQuote(t, i) == Some(i)
    ensures t[i] == NUL ==> ClosingQuote(t, i) == None
    ensures t[i] != QUOTE && t[i] != NUL && t[i] != BACKSLASH ==>
      i + 1 < |t| && ClosingQuote(t, i) == ClosingQuote(t, i + 1)
  {
  }

  lemma ClosingStep(t: seq<byte>, i: nat)
    requires Terminated(t) && i < |t|
    ensures t[i] == BACKSLASH ==> i + 1 < |t|
    ensures t[i] == BACKSLASH && t[i + 1] == 117 ==>
      && i + 2 < |t|
      && (IsHex(t[i + 2]) ==> i + 3 < |t|)
      && (IsHex(t[i + 2]) && IsHex(t[i + 3]) ==> i + 4 < |t|)
      && (IsHex(t[i + 2]) && IsHex(t[i + 3]) && IsHex(t[i + 4]) ==> i + 5 < |t|)
      && if IsHex(t[i + 2]) && IsHex(t[i + 3]) && IsHex(t[i + 4]) && IsHex(t[i + 5]) then
           i + 6 < |t| && ClosingQuote(t, i) == ClosingQuote(t, i + 6)
         else ClosingQuote(t, i) == None
    ensures t[i] == BACKSLASH && t[i + 1] != 117 ==>
      if ShortEscape(t[i + 1]).Some? then
        i + 2 < |t| && ClosingQuote(t, i) == ClosingQuote(t, i + 2)
      else ClosingQuote(t, i) == None
  {
  }

  lemma BackslashSeen(t: seq<byte>, start: nat, before: nat, data: nat)
    requires start <= before <= data <= |t|
    ensures BACKSLASH in t[start..data] <==> BACKSLASH in t[start..before] || BACKSLASH in t[before..data]
    ensures before < data && t[before] == BACKSLASH ==> BACKSLASH in t[before..data]
    ensures data == before + 1 && t[before] != BACKSLASH ==> BACKSLASH !in t[before..data]
  {
    assert t[start..data] == t[start..before] + t[before..data];
    assert before < data ==> t[before..data][0] == t[before];
  }

  lemma StringIsRead(t: seq<byte>, was: seq<byte>, b: seq<byte>, start: nat, close: nat, flag: byte)
    requires Terminated(t) && |was| == |t| && 0 < start <= close < |t|
    requires forall k :: start <= k < |t| ==> was[k] == t[k]
    requires b == was[close := NUL][start - 1 := flag]
    requires ClosingQuote(t, start) == Some(close) && (flag != 0 <==> BACKSLASH in t[start..close])
    ensures GoodText(t[start..close])
    ensures b[..start - 1] == was[..start - 1] && forall k :: close < k < |t| ==> b[k] == t[k]
    ensures var r := StringNode(start, close);
      Sound(b, r, close + 1) && Denote(b, r, close + 1) == Str(Decoded(t[start..close]))
  {
    ClosedTextIsGood(t, start);
    assert b[start..close] == t[start..close];
    if flag == 0 {
      PlainTextIsItself(t[start..close]);
    }
  }
}
