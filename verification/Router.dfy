/** The search tree as the server uses it: rules are added, the tree is compressed, and URLs are looked up. */
module Router {
  import opened Options
  import opened RouteTrie
  import opened RouteTrieUpdates

  /** A parameter name at position `i`, with its length. */
  function ParamAt(url: string, i: nat): (r: Option<(Kind, nat)>)
    ensures r.Some? ==> 0 < r.value.1 && i + r.value.1 <= |url|
  {
    if StartsWith(url, i, "<int>") then Some((INT, 5))
    else if StartsWith(url, i, "<uint>") then Some((UINT, 6))
    else if StartsWith(url, i, "<float>") then Some((DOUBLE, 7))
    else if StartsWith(url, i, "<double>") then Some((DOUBLE, 8))
    else if StartsWith(url, i, "<str>") then Some((STRING, 5))
    else if StartsWith(url, i, "<string>") then Some((STRING, 8))
    else if StartsWith(url, i, "<path>") then Some((PATH, 6))
    else None
  }

  /** The tokens of a pattern from `i` on; none when a `<` starts no known name, or a NUL is among the characters. */
  function Tokens(url: string, i: nat): Option<seq<Token>>
    requires i <= |url|
    decreases |url| - i
  {
    if i == |url| then Some([])
    else if url[i] == '<' then
      match ParamAt(url, i)
      case None => None
      case Some((kind, n)) =>
        match Tokens(url, i + n) case None => None case Some(rest) => Some([Par(kind)] + rest)
    else if url[i] == '\0' then None
    else
      match Tokens(url, i + 1) case None => None case Some(rest) => Some([Lit(url[i])] + rest)
  }

  lemma TokensStep(url: string, i: nat)
    requires i < |url| && Tokens(url, i).Some?
    ensures url[i] == '<' ==>
      && ParamAt(url, i).Some?
      && var (kind, n) := ParamAt(url, i).value;
         i + n <= |url| && Tokens(url, i + n).Some? && Tokens(url, i) == Some([Par(kind)] + Tokens(url, i + n).value)
    ensures url[i] != '<' ==>
      Tokens(url, i + 1).Some? && Tokens(url, i) == Some([Lit(url[i])] + Tokens(url, i + 1).value)
  {
    hide ParamAt;
  }

  lemma NoTokens(url: string)
    ensures Tokens(url, |url|) == Some([])
  {
  }

  /** The argument lists that one search shares among its recursive calls. */
  class RoutingParams {
    var ints: seq<int>
    var uints: seq<int>
    var doubles: seq<real>
    var strings: seq<string>

    ghost function View(): Params
      reads this
    {
      Params(ints, uints, doubles, strings)
    }

    constructor ()
      ensures View() == NO_PARAMS
    {
      ints, uints, doubles, strings := [], [], [], [];
    }

    method Copy() returns (p: Params)
      ensures p == View()
    {
      p := Params(ints, uints, doubles, strings);
    }

    method PushBack(piece: Piece)
      modifies this
      ensures View() == Push(old(View()), piece)
    {
      match piece {
        case AnInt(n) => ints := ints + [n];
        case AUint(n) => uints := uints + [n];
        case ADouble(x) => doubles := doubles + [x];
        case AString(s) => strings := strings + [s];
      }
    }

    method PopBack(piece: Piece, ghost before: Params)
      requires View() == Push(before, piece)
      modifies this
      ensures View() == before
    {
      match piece {
        case AnInt(_) => ints := ints[..|ints| - 1];
        case AUint(_) => uints := uints[..|uints| - 1];
        case ADouble(_) => doubles := doubles[..|doubles| - 1];
        case AString(_) => strings := strings[..|strings| - 1];
      }
    }
  }

  class Trie {
    var head: Node
    /** The rules added so far. */
    ghost var added: set<Rule>

    /** The tree stands for exactly the added rules. */
    ghost predicate Valid()
      reads this
    {
      && WellFormed(head)
      && (forall r <- added :: r.1 > 0)
      && forall x :: x in Rules(head) <==> x in added
    }

    constructor ()
      ensures Valid() && Plain(head) && added == {}
    {
      head := Node(0, "", None, []);
      added := {};
    }

    /** The pattern read from left to right, a name or a character at a time. */
    static method Parse(url: string) returns (tokens: seq<Token>)
      requires Tokens(url, 0).Some?
      ensures Tokens(url, 0) == Some(tokens)
    {
      hide ParamAt, Tokens;
      tokens := [];
      var i := 0;
      assert [] + Tokens(url, 0).value == Tokens(url, 0).value;
      while i < |url|
        invariant i <= |url| && Tokens(url, i).Some? && Tokens(url, 0) == Some(tokens + Tokens(url, i).value)
        decreases |url| - i
      {
        TokensStep(url, i);
        if url[i] == '<' {
          var name := ParamAt(url, i).value;
          assert tokens + ([Par(name.0)] + Tokens(url, i + name.1).value) ==
                 tokens + [Par(name.0)] + Tokens(url, i + name.1).value;
          tokens := tokens + [Par(name.0)];
          i := i + name.1;
        } else {
          assert tokens + ([Lit(url[i])] + Tokens(url, i + 1).value) ==
                 tokens + [Lit(url[i])] + Tokens(url, i + 1).value;
          tokens := tokens + [Lit(url[i])];
          i := i + 1;
        }
      }
      NoTokens(url);
      assert tokens + [] == tokens;
    }

    /** Refuses a pattern that already has a rule and changes nothing then; otherwise the rule is added. */
    method Add(url: string, rule: int) returns (ok: bool)
      requires Valid() && Plain(head) && Tokens(url, 0).Some? && rule > 0
      modifies this
      ensures Valid() && Plain(head)
      ensures ok <==> forall r <- old(added) :: r.0 != Tokens(url, 0).value
      ensures added == old(added) + if ok then {(Tokens(url, 0).value, rule)} else {}
      ensures !ok ==> head == old(head)
    {
      hide Rules, WellFormed, Plain, Added, Tokens;
      var tokens := Parse(url);
      AddedRules(head, tokens, rule);
      var grown := Added(head, tokens, rule);
      if grown == None {
        return false;
      }
      PlainIsWellFormed(grown.value);
      head := grown.value;
      added := added + {(tokens, rule)};
      return true;
    }

    /** Compresses the tree; it stands for the same rules as before. */
    method Optimize()
      requires Valid()
      modifies this`head
      ensures Valid() && head == OptimizedHead(old(head)) && Rules(head) == Rules(old(head))
    {
      hide OptimizedAll;
      OptimizedAllStandForTheSame(head.children);
      var children := OptimizeChildren(head.children);
      head := head.(children := children);
    }

    static method OptimizeChildren(children: seq<Node>) returns (r: seq<Node>)
      ensures r == OptimizedAll(children)
      decreases SizeAll(children), 1
    {
      hide Optimized, Size;
      r := [];
      for i := 0 to |children|
        invariant r + OptimizedAll(children[i..]) == OptimizedAll(children)
      {
        ChildIsSmaller(children, i);
        assert children[i..][1..] == children[i + 1..];
        var child := OptimizeNode(children[i]);
        assert r + ([child] + OptimizedAll(children[i + 1..])) == r + [child] + OptimizedAll(children[i + 1..]);
        r := r + [child];
      }
    }

    static method OptimizeNode(node: Node) returns (r: Node)
      ensures r == Optimized(node)
      decreases Size(node), 0
    {
      if |node.children| == 0 {
        return node;
      }
      if IsSimpleNode(node) {
        MergedIsSmaller(node);
        r := OptimizeNode(Merged(node));
      } else {
        var children := OptimizeChildren(node.children);
        r := node.(children := children);
      }
    }

    /**
     The rule for a URL: 0 exactly when no added rule matches, otherwise the smallest index among those that do,
     with the arguments that rule takes from the URL.
     */
    method Find(url: string, strtod: Strtod) returns (rule: int, params: Params)
      requires Valid()
      ensures rule == 0 <==> forall r <- added :: Match(r.0, url, 0, NO_PARAMS, strtod).None?
      ensures rule != 0 ==> exists r <- added :: Match(r.0, url, 0, NO_PARAMS, strtod) == Some(params) && r.1 == rule
      ensures forall r <- added :: Match(r.0, url, 0, NO_PARAMS, strtod).Some? ==> rule <= r.1
    {
      hide Rules, Match, Search, WellFormed, Best;
      var lists := new RoutingParams();
      var hit := FindFrom(head, url, 0, lists, strtod);
      SearchIsBest(head, url, 0, NO_PARAMS, strtod);
      BestIsSmallest(Rules(head), url, 0, NO_PARAMS, strtod);
      rule, params := hit.0, hit.1;
    }

    /** The recursive search: arguments are pushed for a child and popped again after it. */
    static method FindFrom(node: Node, url: string, pos: nat, params: RoutingParams, strtod: Strtod)
      returns (hit: Hit)
      requires pos <= |url|
      modifies params
      ensures params.View() == old(params.View())
      ensures hit == Search(node, url, pos, params.View(), strtod)
      decreases node
    {
      hide Taken, StartsWith, Push, Better;
      if pos == |url| {
        var copy := params.Copy();
        return (node.rule, copy);
      }
      ghost var p := params.View();
      hit := MISS;
      for i := 0 to |node.children|
        invariant params.View() == p
        invariant SearchAll(node.children[i..], url, pos, p, strtod, hit) ==
                  SearchAll(node.children, url, pos, p, strtod, MISS)
      {
        var child := node.children[i];
        assert node.children[i..][1..] == node.children[i + 1..];
        var ret := MISS;
        if child.param.Some? {
          var taken := Taken(child.param.value, url, pos, strtod);
          if taken.Some? {
            params.PushBack(taken.value.1);
            ret := FindFrom(child, url, taken.value.0, params, strtod);
            params.PopBack(taken.value.1, p);
          }
        } else if StartsWith(url, pos, child.key) {
          StartsWithin(url, pos, child.key);
          ret := FindFrom(child, url, pos + |child.key|, params, strtod);
        }
        hit := Better(hit, ret);
      }
    }
  }

  lemma StartsWithin(url: string, pos: nat, key: string)
    requires StartsWith(url, pos, key)
    ensures pos + |key| <= |url|
  {
  }
}
