/** Patterns of routes, what they match, and the search tree they are kept in. */
module RouteTrie {
  import opened Options

  datatype Kind = INT | UINT | DOUBLE | STRING | PATH

  datatype Token = Lit(c: char) | Par(kind: Kind)

  /** The arguments of a handler, one list a type as the router keeps them. */
  datatype Params = Params(ints: seq<int>, uints: seq<int>, doubles: seq<real>, strings: seq<string>)

  const NO_PARAMS := Params([], [], [], [])

  datatype Piece = AnInt(n: int) | AUint(n: int) | ADouble(x: real) | AString(s: string)

  function Push(p: Params, piece: Piece): Params {
    match piece
    case AnInt(n) => p.(ints := p.ints + [n])
    case AUint(n) => p.(uints := p.uints + [n])
    case ADouble(x) => p.(doubles := p.doubles + [x])
    case AString(s) => p.(strings := p.strings + [s])
  }

  /** `strtod` on the text from a position on: where it stops and the value; none on no number or a range error. */
  type Strtod = (string, nat) -> Option<(nat, real)>

  predicate IsDigit(c: char) {
    '0' <= c <= '9'
  }

  function DigitsEnd(url: string, i: nat): (e: nat)
    requires i <= |url|
    ensures i <= e <= |url|
    decreases |url| - i
  {
    if i < |url| && IsDigit(url[i]) then DigitsEnd(url, i + 1) else i
  }

  function NatOf(digits: string): int {
    if digits == [] then 0 else NatOf(digits[..|digits| - 1]) * 10 + (digits[|digits| - 1] as int - '0' as int)
  }

  const MAX_INT64: int := 0x7FFF_FFFF_FFFF_FFFF
  const MAX_UINT64: int := 0xFFFF_FFFF_FFFF_FFFF

  /** `strtoll` and `strtoull` behind the test of the first character. */
  function Integer(url: string, pos: nat, signed: bool): Option<(nat, int)>
    requires pos < |url|
  {
    var c := url[pos];
    if !(IsDigit(c) || c == '+' || (signed && c == '-')) then None
    else
      var start := if IsDigit(c) then pos else pos + 1;
      var end := DigitsEnd(url, start);
      var n := if c == '-' then -NatOf(url[start..end]) else NatOf(url[start..end]);
      if end == start then None
      else if signed && !(-MAX_INT64 - 1 <= n <= MAX_INT64) then None
      else if !signed && n > MAX_UINT64 then None
      else Some((end, n))
  }

  function SegmentEnd(url: string, i: nat): (e: nat)
    requires i <= |url|
    ensures i <= e <= |url|
    decreases |url| - i
  {
    if i < |url| && url[i] != '/' then SegmentEnd(url, i + 1) else i
  }

  /** What a parameter takes from the URL at `pos`: never nothing. */
  function Taken(kind: Kind, url: string, pos: nat, strtod: Strtod): (r: Option<(nat, Piece)>)
    requires pos < |url|
    ensures r.Some? ==> pos < r.value.0 <= |url|
  {
    match kind
    case INT =>
      (match Integer(url, pos, true) case None => None case Some((end, n)) => Some((end, AnInt(n))))
    case UINT =>
      (match Integer(url, pos, false) case None => None case Some((end, n)) => Some((end, AUint(n))))
    case DOUBLE =>
      var c := url[pos];
      if !(IsDigit(c) || c == '+' || c == '-' || c == '.') then None
      else
        (match strtod(url, pos)
         case None => None
         case Some((end, x)) => if pos < end <= |url| then Some((end, ADouble(x))) else None)
    case STRING =>
      var end := SegmentEnd(url, pos);
      if end == pos then None else Some((end, AString(url[pos..end])))
    case PATH => Some((|url|, AString(url[pos..])))
  }

  /** A pattern against the rest of a URL: each token takes a definite part, and all of it must be taken. */
  function Match(tokens: seq<Token>, url: string, pos: nat, params: Params, strtod: Strtod): Option<Params>
    requires pos <= |url|
    decreases |tokens|
  {
    if tokens == [] then if pos == |url| then Some(params) else None
    else if pos == |url| then None
    else
      match tokens[0]
      case Lit(c) => if url[pos] == c then Match(tokens[1..], url, pos + 1, params, strtod) else None
      case Par(kind) =>
        match Taken(kind, url, pos, strtod)
        case None => None
        case Some((end, piece)) => Match(tokens[1..], url, end, Push(params, piece), strtod)
  }

  /** A rule index, 0 for none, with the arguments found for it. */
  type Hit = (int, Params)

  const MISS: Hit := (0, NO_PARAMS)

  /** The smaller index wins, the earlier hit on a tie. */
  function Better(found: Hit, ret: Hit): Hit {
    if ret.0 != 0 && (found.0 == 0 || found.0 > ret.0) then ret else found
  }

  /** A node: the rule that ends here, the text or parameter that leads here, and the nodes below. */
  datatype Node = Node(rule: int, key: string, param: Option<Kind>, children: seq<Node>)

  function Lits(key: string): (r: seq<Token>)
    ensures |r| == |key|
  {
    if key == [] then [] else [Lit(key[0])] + Lits(key[1..])
  }

  function Edge(node: Node): seq<Token> {
    if node.param.Some? then [Par(node.param.value)] else Lits(node.key)
  }

  /** A pattern and its rule index. */
  type Rule = (seq<Token>, int)

  function Prefixed(edge: seq<Token>, rules: seq<Rule>): (r: seq<Rule>)
    ensures |r| == |rules|
  {
    if rules == [] then [] else [(edge + rules[0].0, rules[0].1)] + Prefixed(edge, rules[1..])
  }

  /** The patterns a node stands for, in the order the search visits them. */
  function Rules(node: Node): seq<Rule> {
    (if node.rule != 0 then [([], node.rule)] else []) + ChildRules(node.children)
  }

  function ChildRules(children: seq<Node>): seq<Rule> {
    if children == [] then []
    else Prefixed(Edge(children[0]), Rules(children[0])) + ChildRules(children[1..])
  }

  /** Every edge takes something. */
  predicate WellFormed(node: Node) {
    forall c <- node.children :: (c.param.None? ==> c.key != []) && WellFormed(c)
  }

  /** The best of the rules that match. */
  function Best(rules: seq<Rule>, url: string, pos: nat, params: Params, strtod: Strtod): Hit
    requires pos <= |url|
  {
    if rules == [] then MISS
    else Better(Outcome(rules[0], url, pos, params, strtod), Best(rules[1..], url, pos, params, strtod))
  }

  function Outcome(rule: Rule, url: string, pos: nat, params: Params, strtod: Strtod): Hit
    requires pos <= |url|
  {
    match Match(rule.0, url, pos, params, strtod)
    case None => MISS
    case Some(p) => if rule.1 == 0 then MISS else (rule.1, p)
  }

  predicate StartsWith(url: string, pos: nat, key: string) {
    pos + |key| <= |url| && url[pos..pos + |key|] == key
  }

  /** `find` as a function of the tree: what a node yields for the rest of the URL. */
  function Search(node: Node, url: string, pos: nat, params: Params, strtod: Strtod): Hit
    requires pos <= |url|
    decreases node, 1
  {
    if pos == |url| then (node.rule, params)
    else SearchAll(node.children, url, pos, params, strtod, MISS)
  }

  function SearchAll(
      children: seq<Node>, url: string, pos: nat, params: Params, strtod: Strtod, found: Hit): Hit
    requires pos < |url|
    decreases children, 2
  {
    if children == [] then found
    else
      SearchAll(children[1..], url, pos, params, strtod, Better(found, Visit(children[0], url, pos, params, strtod)))
  }

  /** One child: its edge is tried at `pos`, and the search goes on below it. */
  function Visit(child: Node, url: string, pos: nat, params: Params, strtod: Strtod): Hit
    requires pos < |url|
    decreases child, 2
  {
    if child.param.Some? then
      match Taken(child.param.value, url, pos, strtod)
      case None => MISS
      case Some((end, piece)) => Search(child, url, end, Push(params, piece), strtod)
    else if StartsWith(url, pos, child.key) then Search(child, url, pos + |child.key|, params, strtod)
    else MISS
  }

  /** Without a rule the arguments do not matter. */
  function Settled(hit: Hit): Hit {
    if hit.0 == 0 then MISS else hit
  }

  lemma BetterIsAssociative(a: Hit, b: Hit, c: Hit)
    ensures Better(Better(a, b), c) == Better(a, Better(b, c))
  {
  }

  lemma {:induction false} BestOfConcat(
      a: seq<Rule>, b: seq<Rule>, url: string, pos: nat, params: Params, strtod: Strtod)
    requires pos <= |url|
    ensures Best(a + b, url, pos, params, strtod) ==
            Better(Best(a, url, pos, params, strtod), Best(b, url, pos, params, strtod))
  {
    hide Outcome;
    if a == [] {
      assert a + b == b;
      BestIsSettled(b, url, pos, params, strtod);
    } else {
      assert (a + b)[1..] == a[1..] + b;
      BestOfConcat(a[1..], b, url, pos, params, strtod);
    }
  }

  lemma {:induction false} BestIsSettled(rules: seq<Rule>, url: string, pos: nat, params: Params, strtod: Strtod)
    requires pos <= |url|
    ensures var hit := Best(rules, url, pos, params, strtod); Settled(hit) == hit
  {
    if rules != [] {
      BestIsSettled(rules[1..], url, pos, params, strtod);
    }
  }

  /** A literal edge is matched as a whole. */
  lemma {:induction false} MatchLits(
      key: string, rest: seq<Token>, url: string, pos: nat, params: Params, strtod: Strtod)
    requires pos <= |url|
    ensures Match(Lits(key) + rest, url, pos, params, strtod) ==
            if StartsWith(url, pos, key) then Match(rest, url, pos + |key|, params, strtod) else None
    decreases |key|
  {
    if key == [] {
      assert Lits(key) + rest == rest;
    } else {
      assert (Lits(key) + rest)[1..] == Lits(key[1..]) + rest;
      if StartsWith(url, pos, key) {
        assert url[pos] == url[pos..pos + |key|][0];
      }
      if pos < |url| && url[pos] == key[0] {
        MatchLits(key[1..], rest, url, pos + 1, params, strtod);
        if StartsWith(url, pos, key) {
          assert url[pos + 1..pos + |key|] == url[pos..pos + |key|][1..];
        }
        if StartsWith(url, pos + 1, key[1..]) {
          assert url[pos..pos + |key|] == [url[pos]] + url[pos + 1..pos + 1 + |key[1..]|];
        }
      }
    }
  }

  /** What an edge takes, and where the rules below it are tried. */
  lemma {:induction false} BestBelow(
      child: Node, rules: seq<Rule>, url: string, pos: nat, params: Params, strtod: Strtod)
    requires pos < |url|
    ensures Best(Prefixed(Edge(child), rules), url, pos, params, strtod) ==
            if child.param.Some? then
              (match Taken(child.param.value, url, pos, strtod)
               case None => MISS
               case Some((end, piece)) => Best(rules, url, end, Push(params, piece), strtod))
            else if StartsWith(url, pos, child.key) then Best(rules, url, pos + |child.key|, params, strtod)
            else MISS
  {
    hide Taken, StartsWith, Lits, Better;
    if rules == [] {
      BetterMisses();
    } else {
      BestBelow(child, rules[1..], url, pos, params, strtod);
      BetterMisses();
      var tokens := rules[0].0;
      if child.param.Some? {
        assert ([Par(child.param.value)] + tokens)[1..] == tokens;
      } else {
        MatchLits(child.key, tokens, url, pos, params, strtod);
      }
    }
  }

  lemma BetterMisses()
    ensures Better(MISS, MISS) == MISS
  {
  }

  /** At the end of the URL only an empty pattern matches. */
  lemma {:induction false} NothingBelowTheEnd(
      children: seq<Node>, url: string, params: Params, strtod: Strtod)
    requires forall c <- children :: c.param.None? ==> c.key != []
    ensures Best(ChildRules(children), url, |url|, params, strtod) == MISS
  {
    hide Rules;
    if children != [] {
      var first := Prefixed(Edge(children[0]), Rules(children[0]));
      PrefixedAtTheEnd(children[0], Rules(children[0]), url, params, strtod);
      NothingBelowTheEnd(children[1..], url, params, strtod);
      BestOfConcat(first, ChildRules(children[1..]), url, |url|, params, strtod);
    }
  }

  lemma {:induction false} PrefixedAtTheEnd(
      child: Node, rules: seq<Rule>, url: string, params: Params, strtod: Strtod)
    requires child.param.None? ==> child.key != []
    ensures Best(Prefixed(Edge(child), rules), url, |url|, params, strtod) == MISS
  {
    hide Lits;
    if rules != [] {
      PrefixedAtTheEnd(child, rules[1..], url, params, strtod);
      assert Edge(child) + rules[0].0 != [];
    }
  }

  /** The recursive search finds the smallest rule index among all patterns of the tree that match. */
  lemma {:induction false} SearchIsBest(node: Node, url: string, pos: nat, params: Params, strtod: Strtod)
    requires pos <= |url| && WellFormed(node)
    ensures Settled(Search(node, url, pos, params, strtod)) == Best(Rules(node), url, pos, params, strtod)
    decreases node, 1
  {
    hide ChildRules, SearchAll, Best;
    var own := if node.rule != 0 then [([], node.rule)] else [];
    BestOfConcat(own, ChildRules(node.children), url, pos, params, strtod);
    BestOfOwn(node.rule, url, pos, params, strtod);
    if pos == |url| {
      NothingBelowTheEnd(node.children, url, params, strtod);
    } else {
      SearchAllIsBest(node.children, url, pos, params, strtod, MISS);
      BestIsSettled(ChildRules(node.children), url, pos, params, strtod);
    }
  }

  lemma BestOfOwn(rule: int, url: string, pos: nat, params: Params, strtod: Strtod)
    requires pos <= |url|
    ensures Best(if rule != 0 then [([], rule)] else [], url, pos, params, strtod) ==
            if pos == |url| then Settled((rule, params)) else MISS
  {
  }

  lemma {:induction false} SearchAllIsBest(
      children: seq<Node>, url: string, pos: nat, params: Params, strtod: Strtod, found: Hit)
    requires pos < |url| && Settled(found) == found
    requires forall c <- children :: (c.param.None? ==> c.key != []) && WellFormed(c)
    ensures SearchAll(children, url, pos, params, strtod, found) ==
            Better(found, Best(ChildRules(children), url, pos, params, strtod))
    decreases children, 2
  {
    hide Rules, Visit, Best;
    if children == [] {
      NoRules(url, pos, params, strtod);
    } else {
      var child, rest := children[0], children[1..];
      VisitIsBest(child, url, pos, params, strtod);
      var first := Prefixed(Edge(child), Rules(child));
      var visited := Visit(child, url, pos, params, strtod);
      BestOfConcat(first, ChildRules(rest), url, pos, params, strtod);
      BetterOfSettled(found, visited);
      SearchAllIsBest(rest, url, pos, params, strtod, Better(found, visited));
      BetterIsAssociative(found, Settled(visited), Best(ChildRules(rest), url, pos, params, strtod));
    }
  }

  lemma NoRules(url: string, pos: nat, params: Params, strtod: Strtod)
    requires pos <= |url|
    ensures Best([], url, pos, params, strtod) == MISS
  {
  }

  lemma BetterOfSettled(found: Hit, ret: Hit)
    requires Settled(found) == found
    ensures Better(found, Settled(ret)) == Better(found, ret) && Settled(Better(found, ret)) == Better(found, ret)
  {
  }

  lemma {:induction false} VisitIsBest(child: Node, url: string, pos: nat, params: Params, strtod: Strtod)
    requires pos < |url| && WellFormed(child)
    ensures Settled(Visit(child, url, pos, params, strtod)) ==
            Best(Prefixed(Edge(child), Rules(child)), url, pos, params, strtod)
    decreases child, 2
  {
    hide Taken, Rules, Best, Search, WellFormed;
    BestBelow(child, Rules(child), url, pos, params, strtod);
    if child.param.Some? {
      match Taken(child.param.value, url, pos, strtod) {
        case None =>
        case Some((end, piece)) => SearchIsBest(child, url, end, Push(params, piece), strtod);
      }
    } else if StartsWith(url, pos, child.key) {
      SearchIsBest(child, url, pos + |child.key|, params, strtod);
    }
  }

  /** What the best of a list of rules means: an index that some matching rule has and none undercuts. */
  lemma {:induction false} BestIsSmallest(
      rules: seq<Rule>, url: string, pos: nat, params: Params, strtod: Strtod)
    requires pos <= |url| && forall r <- rules :: r.1 != 0
    ensures var hit := Best(rules, url, pos, params, strtod);
      && (hit.0 == 0 <==> forall r <- rules :: Match(r.0, url, pos, params, strtod).None?)
      && (hit.0 != 0 ==>
            exists r <- rules :: Match(r.0, url, pos, params, strtod) == Some(hit.1) && r.1 == hit.0)
      && forall r <- rules :: Match(r.0, url, pos, params, strtod).Some? ==> hit.0 <= r.1
  {
    hide Match;
    if rules != [] {
      BestIsSmallest(rules[1..], url, pos, params, strtod);
      assert forall r <- rules :: r == rules[0] || r in rules[1..];
      assert rules[0] in rules && forall r <- rules[1..] :: r in rules;
    }
  }
}
