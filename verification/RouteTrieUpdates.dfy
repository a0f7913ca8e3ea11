/** Adding a rule to the tree, and compressing chains of nodes: what both do to the patterns the tree stands for. */
module RouteTrieUpdates {
  import opened Options
  import opened RouteTrie

  /** A node with no rule of its own, not a parameter, above at most one child that is not a parameter either. */
  predicate IsSimpleNode(node: Node) {
    && node.rule == 0 && |node.children| < 2 && node.param.None?
    && forall c <- node.children :: c.param.None?
  }

  /** The child's text is appended, and its rule and children are taken over. */
  function Merged(node: Node): Node
    requires |node.children| == 1
  {
    var child := node.children[0];
    Node(child.rule, node.key + child.key, node.param, child.children)
  }

  function Size(node: Node): nat {
    1 + SizeAll(node.children)
  }

  function SizeAll(children: seq<Node>): nat {
    if children == [] then 0 else Size(children[0]) + SizeAll(children[1..])
  }

  lemma {:induction false} ChildIsSmaller(children: seq<Node>, i: nat)
    requires i < |children|
    ensures Size(children[i]) <= SizeAll(children)
  {
    if i > 0 {
      ChildIsSmaller(children[1..], i - 1);
    }
  }

  function Optimized(node: Node): Node
    decreases Size(node), 0
  {
    if node.children == [] then node
    else if IsSimpleNode(node) then
      MergedIsSmaller(node);
      Optimized(Merged(node))
    else node.(children := OptimizedAll(node.children))
  }

  function OptimizedAll(children: seq<Node>): (r: seq<Node>)
    ensures |r| == |children|
    decreases SizeAll(children), 1
  {
    if children == [] then [] else [Optimized(children[0])] + OptimizedAll(children[1..])
  }

  lemma MergedIsSmaller(node: Node)
    requires |node.children| == 1
    ensures Size(Merged(node)) < Size(node)
  {
    assert SizeAll(node.children) == Size(node.children[0]) + SizeAll(node.children[1..]);
  }

  lemma {:induction false} LitsConcat(a: string, b: string)
    ensures Lits(a + b) == Lits(a) + Lits(b)
  {
    if a == [] {
      assert a + b == b;
    } else {
      assert (a + b)[1..] == a[1..] + b;
      LitsConcat(a[1..], b);
    }
  }

  lemma {:induction false} PrefixedTwice(a: seq<Token>, b: seq<Token>, rules: seq<Rule>)
    ensures Prefixed(a, Prefixed(b, rules)) == Prefixed(a + b, rules)
  {
    if rules != [] {
      PrefixedTwice(a, b, rules[1..]);
      assert a + (b + rules[0].0) == a + b + rules[0].0;
    }
  }

  /** The patterns a node adds to those of its parent. */
  function RulesFrom(node: Node): seq<Rule> {
    Prefixed(Edge(node), Rules(node))
  }

  lemma MergedStandsForTheSame(node: Node)
    requires |node.children| == 1 && IsSimpleNode(node)
    ensures RulesFrom(Merged(node)) == RulesFrom(node)
  {
    hide Lits, Prefixed;
    var child := node.children[0];
    assert node.children[1..] == [];
    assert child in node.children;
    LitsConcat(node.key, child.key);
    assert ChildRules(node.children) == RulesFrom(child) + ChildRules([]);
    assert Rules(node) == RulesFrom(child);
    PrefixedTwice(Lits(node.key), Lits(child.key), Rules(child));
    assert Rules(Merged(node)) == Rules(child);
  }

  lemma {:induction false} OptimizedStandsForTheSame(node: Node)
    requires WellFormed(node) && (node.param.None? ==> node.key != [])
    ensures RulesFrom(Optimized(node)) == RulesFrom(node) && WellFormed(Optimized(node))
    ensures Optimized(node).param.None? ==> Optimized(node).key != []
    decreases Size(node), 0
  {
    hide Prefixed, Lits;
    if node.children == [] {
    } else if IsSimpleNode(node) {
      MergedIsSmaller(node);
      MergedStandsForTheSame(node);
      assert node.children[0] in node.children;
      OptimizedStandsForTheSame(Merged(node));
    } else {
      OptimizedAllStandForTheSame(node.children);
    }
  }

  lemma {:induction false} OptimizedAllStandForTheSame(children: seq<Node>)
    requires forall c <- children :: (c.param.None? ==> c.key != []) && WellFormed(c)
    ensures ChildRules(OptimizedAll(children)) == ChildRules(children)
    ensures forall c <- OptimizedAll(children) :: (c.param.None? ==> c.key != []) && WellFormed(c)
    decreases SizeAll(children), 1
  {
    hide Rules, WellFormed;
    if children != [] {
      var rest := OptimizedAll(children[1..]);
      OptimizedStandsForTheSame(children[0]);
      OptimizedAllStandForTheSame(children[1..]);
      assert ([Optimized(children[0])] + rest)[1..] == rest;
    }
  }

  /** `optimize` leaves the head alone and compresses below it. */
  function OptimizedHead(head: Node): Node {
    head.(children := OptimizedAll(head.children))
  }

  /**
   Compression preserves meaning: every URL is routed to the same rule with the same arguments before and after,
   whatever the tree, as long as its edges take something.
   */
  lemma OptimizePreservesSearch(head: Node, url: string, strtod: Strtod)
    requires WellFormed(head)
    ensures Settled(Search(OptimizedHead(head), url, 0, NO_PARAMS, strtod)) ==
            Settled(Search(head, url, 0, NO_PARAMS, strtod))
  {
    hide OptimizedAll, Search, ChildRules, Best;
    OptimizedAllStandForTheSame(head.children);
    SearchIsBest(head, url, 0, NO_PARAMS, strtod);
    SearchIsBest(OptimizedHead(head), url, 0, NO_PARAMS, strtod);
  }

  /** The tree while rules are added: one character or one parameter an edge, no two alike below a node. */
  predicate Plain(node: Node) {
    && (forall c <- node.children :: (if c.param.Some? then c.key == [] else |c.key| == 1) && Plain(c))
    && forall i, j :: 0 <= i < j < |node.children| ==> Edge(node.children[i]) != Edge(node.children[j])
  }

  lemma PlainIsWellFormed(node: Node)
    requires Plain(node)
    ensures WellFormed(node)
  {
  }

  /** The child a token leads to, or the number of children. */
  function ChildFor(children: seq<Node>, token: Token): (i: nat)
    ensures i <= |children|
    ensures i < |children| ==> Edge(children[i]) == [token]
    ensures forall k :: 0 <= k < i ==> Edge(children[k]) != [token]
  {
    if children == [] then 0
    else if Edge(children[0]) == [token] then 0
    else 1 + ChildFor(children[1..], token)
  }

  function NewNode(token: Token): Node {
    match token
    case Lit(c) => Node(0, [c], None, [])
    case Par(kind) => Node(0, [], Some(kind), [])
  }

  /** `add` on a parsed pattern; none when a rule already ends there. */
  function Added(node: Node, tokens: seq<Token>, rule: int): Option<Node>
    decreases |tokens|
  {
    if tokens == [] then if node.rule != 0 then None else Some(node.(rule := rule))
    else
      var i := ChildFor(node.children, tokens[0]);
      var child := if i < |node.children| then node.children[i] else NewNode(tokens[0]);
      match Added(child, tokens[1..], rule)
      case None => None
      case Some(c) =>
        Some(node.(children := if i < |node.children| then node.children[i := c] else node.children + [c]))
  }

  lemma EdgeOfNewNode(token: Token)
    ensures Edge(NewNode(token)) == [token] && Plain(NewNode(token)) && Rules(NewNode(token)) == []
  {
    match token {
      case Lit(c) => assert [c][1..] == [];
      case Par(kind) =>
    }
  }

  lemma {:induction false} InPrefixed(edge: seq<Token>, rules: seq<Rule>, x: Rule)
    ensures x in Prefixed(edge, rules) <==> edge <= x.0 && (x.0[|edge|..], x.1) in rules
  {
    if rules != [] {
      InPrefixed(edge, rules[1..], x);
      if edge <= x.0 {
        assert edge + x.0[|edge|..] == x.0;
      }
      if x == (edge + rules[0].0, rules[0].1) {
        assert x.0[|edge|..] == rules[0].0;
      }
    }
  }

  lemma {:induction false} InChildRules(children: seq<Node>, x: Rule)
    ensures x in ChildRules(children) <==> exists i :: 0 <= i < |children| && x in RulesFrom(children[i])
  {
    hide Rules;
    if children != [] {
      InChildRules(children[1..], x);
      if i: nat :| i < |children| && x in RulesFrom(children[i]) {
        if i > 0 {
          assert children[i] == children[1..][i - 1];
        }
      }
      if x in ChildRules(children[1..]) {
        var i :| 0 <= i < |children[1..]| && x in RulesFrom(children[1..][i]);
        assert children[i + 1] == children[1..][i];
      }
    }
  }

  lemma EdgeIsOne(c: Node)
    requires if c.param.Some? then c.key == [] else |c.key| == 1
    ensures |Edge(c)| == 1
  {
  }

  /** A pattern below a node goes through a child its first token leads to. */
  lemma Through(node: Node, x: Rule)
    requires Plain(node) && x.0 != []
    ensures x in Rules(node) <==>
            exists i :: 0 <= i < |node.children| && LeadsTo(node.children[i], x)
  {
    hide Rules, Edge;
    OwnRules(node);
    InChildRules(node.children, x);
    forall i | 0 <= i < |node.children|
      ensures x in RulesFrom(node.children[i]) <==> LeadsTo(node.children[i], x)
    {
      var c := node.children[i];
      assert c in node.children;
      EdgeIsOne(c);
      InPrefixed(Edge(c), Rules(c), x);
    }
  }

  /** The child carries the pattern's first token, and stands for the rest. */
  predicate LeadsTo(child: Node, x: Rule)
    requires x.0 != []
  {
    Edge(child) == [x.0[0]] && (x.0[1..], x.1) in Rules(child)
  }

  lemma OwnRules(node: Node)
    ensures Rules(node) == (if node.rule != 0 then [([], node.rule)] else []) + ChildRules(node.children)
  {
  }

  lemma EmptyPattern(node: Node, rule: int)
    requires Plain(node)
    ensures ([], rule) in Rules(node) <==> rule != 0 && node.rule == rule
  {
    hide Rules;
    OwnRules(node);
    InChildRules(node.children, ([], rule));
    forall i | 0 <= i < |node.children|
      ensures ([], rule) !in RulesFrom(node.children[i])
    {
      var c := node.children[i];
      assert c in node.children;
      EdgeIsOne(c);
      InPrefixed(Edge(c), Rules(c), ([], rule));
    }
  }

  /** Where the next token of a pattern leads, and the tree after the rest is added there. */
  lemma AddedStep(node: Node, tokens: seq<Token>, rule: int) returns (i: nat, child: Node)
    requires Plain(node) && tokens != []
    ensures i <= |node.children| && Plain(child) && Edge(child) == [tokens[0]]
    ensures if child.param.Some? then child.key == [] else |child.key| == 1
    ensures if i < |node.children| then child == node.children[i] else Rules(child) == []
    ensures forall k :: 0 <= k < |node.children| && k != i ==> Edge(node.children[k]) != [tokens[0]]
    ensures Added(child, tokens[1..], rule) == None ==> Added(node, tokens, rule) == None
    ensures Added(child, tokens[1..], rule).Some? ==>
      Added(node, tokens, rule) == Some(WithChild(node, i, Added(child, tokens[1..], rule).value))
  {
    i := ChildFor(node.children, tokens[0]);
    EdgeOfNewNode(tokens[0]);
    child := if i < |node.children| then node.children[i] else NewNode(tokens[0]);
    if i < |node.children| {
      assert child in node.children;
    }
  }

  function WithChild(node: Node, i: nat, c: Node): Node
    requires i <= |node.children|
  {
    node.(children := if i < |node.children| then node.children[i := c] else node.children + [c])
  }

  lemma WithChildIsPlain(node: Node, i: nat, c: Node)
    requires Plain(node) && i <= |node.children| && Plain(c)
    requires if c.param.Some? then c.key == [] else |c.key| == 1
    requires forall k :: 0 <= k < |node.children| && k != i ==> Edge(node.children[k]) != Edge(c)
    ensures Plain(WithChild(node, i, c))
  {
    hide Edge;
    var grown := WithChild(node, i, c);
    forall k | 0 <= k < |grown.children|
      ensures (if grown.children[k].param.Some? then grown.children[k].key == [] else |grown.children[k].key| == 1)
      ensures Plain(grown.children[k])
    {
      if k != i {
        assert grown.children[k] == node.children[k] && node.children[k] in node.children;
      }
    }
  }

  lemma TakenPatterns(node: Node, tokens: seq<Token>, i: nat, child: Node)
    requires Plain(node) && tokens != [] && i <= |node.children| && Edge(child) == [tokens[0]]
    requires if i < |node.children| then child == node.children[i] else Rules(child) == []
    requires forall k :: 0 <= k < |node.children| && k != i ==> Edge(node.children[k]) != [tokens[0]]
    ensures forall r :: (tokens, r) in Rules(node) <==> (tokens[1..], r) in Rules(child)
  {
    hide Rules, Edge, Plain;
    forall r
      ensures (tokens, r) in Rules(node) <==> (tokens[1..], r) in Rules(child)
    {
      Through(node, (tokens, r));
      if (tokens[1..], r) in Rules(child) {
        assert LeadsTo(node.children[i], (tokens, r));
      }
    }
  }

  /** One pattern, before and after a child is replaced or appended. */
  lemma PatternsAfter(node: Node, tokens: seq<Token>, rule: int, i: nat, child: Node, c: Node, x: Rule)
    requires Plain(node) && tokens != [] && i <= |node.children|
    requires Edge(child) == [tokens[0]] && Edge(c) == [tokens[0]]
    requires if i < |node.children| then child == node.children[i] else Rules(child) == []
    requires Plain(WithChild(node, i, c))
    requires forall y :: y in Rules(c) <==> y in Rules(child) || y == (tokens[1..], rule)
    ensures x in Rules(WithChild(node, i, c)) <==> x in Rules(node) || x == (tokens, rule)
  {
    hide Rules, Edge, Plain;
    var grown := WithChild(node, i, c);
    if x.0 == [] {
      EmptyPattern(node, x.1);
      EmptyPattern(grown, x.1);
    } else {
      Through(node, x);
      Through(grown, x);
      var y := (x.0[1..], x.1);
      assert x.0 == [x.0[0]] + x.0[1..] && tokens == [tokens[0]] + tokens[1..];
      if x in Rules(grown) {
        var j :| 0 <= j < |grown.children| && LeadsTo(grown.children[j], x);
        if j != i {
          assert LeadsTo(node.children[j], x);
        } else if y in Rules(child) {
          assert LeadsTo(node.children[i], x);
        }
      }
      if x in Rules(node) {
        var j :| 0 <= j < |node.children| && LeadsTo(node.children[j], x);
        assert j == i ==> y in Rules(c);
        assert LeadsTo(grown.children[j], x);
      }
      if x == (tokens, rule) {
        assert y in Rules(c);
        assert LeadsTo(grown.children[i], x);
      }
    }
  }

  lemma SetRule(node: Node, rule: int)
    requires Plain(node) && rule != 0 && node.rule == 0
    ensures Plain(node.(rule := rule))
    ensures forall x :: x in Rules(node.(rule := rule)) <==> x in Rules(node) || x == ([], rule)
  {
    hide Rules, Edge;
    var grown := node.(rule := rule);
    forall x
      ensures x in Rules(grown) <==> x in Rules(node) || x == ([], rule)
    {
      if x.0 == [] {
        EmptyPattern(node, x.1);
        EmptyPattern(grown, x.1);
      } else {
        Through(node, x);
        Through(grown, x);
      }
    }
  }

  /** Adding keeps the tree plain, and adds exactly the one rule; it fails exactly when the pattern has one. */
  lemma {:induction false} AddedRules(node: Node, tokens: seq<Token>, rule: int)
    requires Plain(node) && rule != 0
    ensures Added(node, tokens, rule) == None <==> exists r :: (tokens, r) in Rules(node)
    ensures Added(node, tokens, rule).Some? ==>
      var grown := Added(node, tokens, rule).value;
      && Plain(grown) && grown.key == node.key && grown.param == node.param
      && forall x :: x in Rules(grown) <==> x in Rules(node) || x == (tokens, rule)
    decreases |tokens|
  {
    hide Rules, Plain;
    if tokens == [] {
      forall r
        ensures ([], r) in Rules(node) <==> r != 0 && node.rule == r
      {
        EmptyPattern(node, r);
      }
      assert node.rule != 0 ==> (tokens, node.rule) in Rules(node);
      if node.rule == 0 {
        SetRule(node, rule);
      }
    } else {
      hide Added;
      var i, child := AddedStep(node, tokens, rule);
      AddedRules(child, tokens[1..], rule);
      TakenPatterns(node, tokens, i, child);
      if Added(child, tokens[1..], rule).Some? {
        var c := Added(child, tokens[1..], rule).value;
        WithChildIsPlain(node, i, c);
        forall x
          ensures x in Rules(WithChild(node, i, c)) <==> x in Rules(node) || x == (tokens, rule)
        {
          PatternsAfter(node, tokens, rule, i, child, c, x);
        }
      }
    }
  }
}
