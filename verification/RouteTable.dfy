/** Adding patterns to the route trie, and routing as a whole. */
module RouteTable {
  import opened Decimal
  import opened Memory
  import opened Trie
  import opened TrieOptimize

  // ----- Reading a pattern -----

  /** `paramTraits`, in the order in which `add` tries them. */
  const TRAITS: seq<(string, ParamType)> := [
    ("<int>", INT), ("<uint>", UINT), ("<float>", DOUBLE), ("<double>", DOUBLE),
    ("<str>", STRING), ("<string>", STRING), ("<path>", PATH)]

  function TraitAt(s: string, from: nat): (r: Option<(nat, ParamType)>)
    requires from <= |TRAITS|
    ensures r.Some? ==> 0 < r.value.0 <= |s|
    decreases |TRAITS| - from
  {
    if from == |TRAITS| then None
    else
      var (name, kind) := TRAITS[from];
      assert |name| > 0;
      if name <= s then Some((|name|, kind)) else TraitAt(s, from + 1)
  }

  /** The tokens of a pattern; `None` when a '<' starts no known parameter, on
      which `add` would not come back. */
  function Tokenize(pattern: string): Option<seq<Token>>
    decreases |pattern|
  {
    if pattern == [] then Some([])
    else if pattern[0] == '<' then
      match TraitAt(pattern, 0)
      case None => None
      case Some((k, kind)) =>
        match Tokenize(pattern[k..])
        case None => None
        case Some(rest) => Some([Par(kind)] + rest)
    else
      match Tokenize(pattern[1..])
      case None => None
      case Some(rest) => Some([Ch(pattern[0])] + rest)
  }

  /** What a pattern's parameters capture of a URL, after `ps`, if it matches. */
  function Caught(sd: Strtod, pattern: string, url: string, ps: Params): Option<Params> {
    match Tokenize(pattern)
    case None => None
    case Some(tokens) =>
      match Advance(sd, tokens, url, 0, ps)
      case None => None
      case Some((end, captured)) => if end == |url| then Some(captured) else None
  }

  // ----- Adding -----

  /** `key[0]`, which is the terminating NUL on an empty key. */
  function KeyHead(node: Node): char {
    if node.key == [] then NUL else node.key[0]
  }

  predicate Takes(child: Node, token: Token) {
    match token
    case Ch(c) => KeyHead(child) == c
    case Par(kind) => child.param == Some(kind)
  }

  /** The first child that takes the token, or their number. */
  function ChildFor(children: seq<Node>, token: Token): (i: nat)
    ensures i <= |children|
    ensures i < |children| ==> Takes(children[i], token)
    ensures forall j :: 0 <= j < i ==> !Takes(children[j], token)
  {
    if children == [] || Takes(children[0], token) then 0 else 1 + ChildFor(children[1..], token)
  }

  function NewNode(token: Token): Node {
    match token
    case Ch(c) => Node(0, [c], None, [])
    case Par(kind) => Node(0, "", Some(kind), [])
  }

  /** `Trie::add` below a node: follow or create one node per token, then set
      the rule; `None` is the exception thrown when a rule is there already. */
  function Add(node: Node, tokens: seq<Token>, rule: nat): Option<Node>
    decreases |tokens|
  {
    if tokens == [] then
      if node.rule != 0 then None else Some(node.(rule := rule))
    else
      var i := ChildFor(node.children, tokens[0]);
      var child := if i < |node.children| then node.children[i] else NewNode(tokens[0]);
      match Add(child, tokens[1..], rule)
      case None => None
      case Some(grown) =>
        Some(node.(children := node.children[..i] + [grown] + node.children[if i < |node.children| then i + 1 else i..]))
  }

  predicate GoodToken(token: Token) {
    token != Ch(NUL)
  }

  ghost predicate GoodTokens(tokens: seq<Token>) {
    forall i :: 0 <= i < |tokens| ==> GoodToken(tokens[i])
  }

  /** A node that stands for exactly one token, as `add` makes them. */
  predicate Single(node: Node) {
    match node.param
    case None => |node.key| == 1
    case Some(_) => node.key == []
  }

  function TokenOf(node: Node): Token
    requires Single(node)
  {
    match node.param
    case None => Ch(node.key[0])
    case Some(kind) => Par(kind)
  }

  /** An unoptimised trie: one token per node, and none that an earlier sibling
      would take. */
  ghost predicate Unoptimized(node: Node)
    decreases node
  {
    && (forall i :: 0 <= i < |node.children| ==> Single(node.children[i]) && Unoptimized(node.children[i]))
    && (forall i, j :: 0 <= i < j < |node.children| ==> !Takes(node.children[i], TokenOf(node.children[j])))
  }

  lemma {:induction false} UnoptimizedIsProper(node: Node)
    requires Unoptimized(node)
    ensures Proper(node)
    decreases node
  {
    forall i | 0 <= i < |node.children|
      ensures TokensOf(node.children[i]) != [] && Proper(node.children[i])
    {
      assert Single(node.children[i]);
      UnoptimizedIsProper(node.children[i]);
    }
  }

  /** The one case in which `add` takes a child for another token: a NUL
      character and a parameter, whose empty key also reads as NUL. */
  lemma TakesIff(child: Node, token: Token)
    requires Single(child)
    ensures Takes(child, token) <==> TokenOf(child) == token || (token == Ch(NUL) && TokenOf(child).Par?)
  {
  }

  /** Hence no two siblings stand for the same token. */
  lemma SiblingsDiffer(node: Node, i: nat, j: nat)
    requires Unoptimized(node) && i < |node.children| && j < |node.children| && i != j
    ensures Single(node.children[i]) && Single(node.children[j])
    ensures TokenOf(node.children[i]) != TokenOf(node.children[j])
  {
    var first, second := if i < j then i else j, if i < j then j else i;
    TakesIff(node.children[first], TokenOf(node.children[second]));
  }

  // ----- Membership of routes -----

  lemma InPrefixed(tokens: seq<Token>, routes: seq<Route>, r: Route)
    ensures r in Prefixed(tokens, routes) <==> tokens <= r.tokens && Route(r.tokens[|tokens|..], r.rule) in routes
  {
    if tokens <= r.tokens && Route(r.tokens[|tokens|..], r.rule) in routes {
      var i :| 0 <= i < |routes| && routes[i] == Route(r.tokens[|tokens|..], r.rule);
      assert r.tokens == tokens + routes[i].tokens;
      assert Prefixed(tokens, routes)[i] == r;
    }
    if r in Prefixed(tokens, routes) {
      var i :| 0 <= i < |routes| && Prefixed(tokens, routes)[i] == r;
      assert r.tokens == tokens + routes[i].tokens;
      assert r.tokens[|tokens|..] == routes[i].tokens;
      assert routes[i] == Route(r.tokens[|tokens|..], r.rule);
    }
  }

  lemma {:induction false} InRoutesIn(children: seq<Node>, r: Route)
    ensures r in RoutesIn(children) <==> exists i :: 0 <= i < |children| && r in Branch(children[i])
    decreases |children|
  {
    hide Routes, Prefixed, TokensOf;
    if children != [] {
      var front := children[..|children| - 1];
      InRoutesIn(front, r);
      assert RoutesIn(children) == RoutesIn(front) + Branch(children[|children| - 1]);
      if r in RoutesIn(front) {
        var i :| 0 <= i < |front| && r in Branch(front[i]);
        assert r in Branch(children[i]);
      }
      if i :| 0 <= i < |children| && r in Branch(children[i]) {
        assert i < |front| ==> r in Branch(front[i]);
      }
    }
  }

  lemma InRoutes(node: Node, r: Route)
    ensures r in Routes(node) <==>
      (node.rule != 0 && r == Route([], node.rule)) || exists i :: 0 <= i < |node.children| && r in Branch(node.children[i])
  {
    InRoutesIn(node.children, r);
  }

  lemma InBranch(child: Node, r: Route)
    requires Single(child)
    ensures r in Branch(child) <==>
      r.tokens != [] && r.tokens[0] == TokenOf(child) && Route(r.tokens[1..], r.rule) in Routes(child)
  {
    assert TokensOf(child) == [TokenOf(child)];
    InPrefixed(TokensOf(child), Routes(child), r);
  }

  /** In an unoptimised trie a route goes through the child for its first token. */
  lemma {:induction false} RouteGoesThrough(node: Node, r: Route, i: nat)
    requires Unoptimized(node) && r.tokens != [] && i < |node.children|
    requires TokenOf(node.children[i]) == r.tokens[0]
    ensures r in Routes(node) <==> Route(r.tokens[1..], r.rule) in Routes(node.children[i])
  {
    InRoutes(node, r);
    InBranch(node.children[i], r);
    forall j | 0 <= j < |node.children| && j != i ensures r !in Branch(node.children[j]) {
      SiblingsDiffer(node, i, j);
      InBranch(node.children[j], r);
    }
  }

  lemma {:induction false} NoRouteThrough(node: Node, r: Route)
    requires Unoptimized(node) && r.tokens != []
    requires forall i :: 0 <= i < |node.children| ==> TokenOf(node.children[i]) != r.tokens[0]
    ensures r !in Routes(node)
  {
    InRoutes(node, r);
    forall j | 0 <= j < |node.children| ensures r !in Branch(node.children[j]) {
      InBranch(node.children[j], r);
    }
  }

  // ----- What adding a pattern does -----

  ghost predicate Taken(node: Node, tokens: seq<Token>) {
    exists k :: Route(tokens, k) in Routes(node)
  }

  /** The routes of `after` are those of `node` and `added`. */
  ghost predicate OneMore(node: Node, after: Node, added: Route) {
    forall r :: r in Routes(after) <==> r in Routes(node) || r == added
  }

  /** The node `Add` goes to for the first token. */
  function Stepped(node: Node, token: Token): Node {
    var i := ChildFor(node.children, token);
    if i < |node.children| then node.children[i] else NewNode(token)
  }

  function Regrown(node: Node, token: Token, grown: Node): Node {
    var i := ChildFor(node.children, token);
    node.(children := node.children[..i] + [grown] + node.children[if i < |node.children| then i + 1 else i..])
  }

  /** Where `Add` goes is a child for the token it is taken for: the token
      itself, or a parameter for a NUL. */
  lemma {:induction false} SteppedFits(node: Node, token: Token)
    requires Unoptimized(node)
    ensures Single(Stepped(node, token)) && Unoptimized(Stepped(node, token)) && Takes(Stepped(node, token), token)
    ensures ChildFor(node.children, token) == |node.children| ==> TokenOf(Stepped(node, token)) == token
    ensures ChildFor(node.children, token) == |node.children| ==> Routes(Stepped(node, token)) == []
    ensures forall j :: 0 <= j < |node.children| && j != ChildFor(node.children, token) ==>
      TokenOf(node.children[j]) != TokenOf(Stepped(node, token))
  {
    var i := ChildFor(node.children, token);
    forall j | 0 <= j < |node.children| && j != i
      ensures TokenOf(node.children[j]) != TokenOf(Stepped(node, token))
    {
      if i < |node.children| {
        SiblingsDiffer(node, i, j);
      } else {
        TakesIff(node.children[j], token);
      }
    }
  }

  /** The token whose child `Add` goes to, which is `token` but for a NUL. */
  ghost function TakenFor(node: Node, token: Token): (t: Token)
    requires Unoptimized(node)
    ensures t == token || (token == Ch(NUL) && t.Par?)
  {
    SteppedFits(node, token);
    TakesIff(Stepped(node, token), token);
    TokenOf(Stepped(node, token))
  }

  /** The tokens whose nodes `Add` goes along. */
  ghost function Walked(node: Node, tokens: seq<Token>): (walked: seq<Token>)
    requires Unoptimized(node)
    ensures |walked| == |tokens|
    decreases |tokens|
  {
    if tokens == [] then [] else
    SteppedFits(node, tokens[0]);
    [TakenFor(node, tokens[0])] + Walked(Stepped(node, tokens[0]), tokens[1..])
  }

  /** Somewhere along the walk a NUL is taken for a parameter. */
  predicate Mistaken(node: Node, tokens: seq<Token>)
    decreases |tokens|
  {
    tokens != []
    && var next := Stepped(node, tokens[0]);
    (tokens[0] == Ch(NUL) && next.param.Some?) || Mistaken(next, tokens[1..])
  }

  /** The children after regrowing: the one for the token, and the others as they were. */
  lemma {:induction false} RegrownChildren(node: Node, token: Token, grown: Node)
    ensures
      var i, after := ChildFor(node.children, token), Regrown(node, token, grown);
      && after.rule == node.rule && after.key == node.key && after.param == node.param
      && i < |after.children| && |after.children| == (if i < |node.children| then |node.children| else i + 1)
      && after.children[i] == grown
      && forall j :: 0 <= j < |node.children| && j != i ==> after.children[j] == node.children[j]
  {
    hide ChildFor, Takes;
  }

  lemma {:induction false} RegrownFits(node: Node, token: Token, grown: Node)
    requires Unoptimized(node) && Unoptimized(grown) && Single(grown) && TokenOf(grown) == TakenFor(node, token)
    ensures Unoptimized(Regrown(node, token, grown))
    ensures Regrown(node, token, grown).key == node.key && Regrown(node, token, grown).param == node.param
  {
    SteppedFits(node, token);
    RegrownChildren(node, token, grown);
    UnoptimizedFrom(node, ChildFor(node.children, token), grown, Regrown(node, token, grown));
  }

  lemma {:induction false} UnoptimizedFrom(node: Node, i: nat, grown: Node, after: Node)
    requires Unoptimized(node) && Unoptimized(grown) && Single(grown) && i < |after.children| && after.children[i] == grown
    requires |after.children| == (if i < |node.children| then |node.children| else i + 1) && i <= |node.children|
    requires forall j :: 0 <= j < |node.children| && j != i ==> after.children[j] == node.children[j]
    requires i < |node.children| ==> Single(node.children[i]) && TokenOf(node.children[i]) == TokenOf(grown)
    requires i == |node.children| ==> forall j :: 0 <= j < i ==> !Takes(node.children[j], TokenOf(grown))
    ensures Unoptimized(after)
  {
    ChildrenAreSingle(node);
    hide Single, TokenOf, Unoptimized, Takes;
    forall j | 0 <= j < |after.children| ensures Single(after.children[j]) && Unoptimized(after.children[j]) {
      if j != i {
        UnoptimizedChild(node, j);
      }
    }
    forall j, k | 0 <= j < k < |after.children| ensures !Takes(after.children[j], TokenOf(after.children[k])) {
      if k < |node.children| {
        UnoptimizedPair(node, j, k);
        TakesIff(node.children[j], TokenOf(node.children[k]));
        TakesIff(after.children[j], TokenOf(node.children[k]));
      }
    }
    UnoptimizedNode(after);
  }

  lemma {:induction false} UnoptimizedChild(node: Node, j: nat)
    requires Unoptimized(node) && j < |node.children|
    ensures Single(node.children[j]) && Unoptimized(node.children[j])
  {
    hide Single, TokenOf;
  }

  lemma {:induction false} UnoptimizedPair(node: Node, j: nat, k: nat)
    requires Unoptimized(node) && j < k < |node.children|
    ensures Single(node.children[j]) && Single(node.children[k]) && !Takes(node.children[j], TokenOf(node.children[k]))
  {
    hide Single, TokenOf;
  }

  lemma {:induction false} UnoptimizedNode(node: Node)
    requires forall j :: 0 <= j < |node.children| ==> Single(node.children[j]) && Unoptimized(node.children[j])
    requires forall j, k :: 0 <= j < k < |node.children| ==> !Takes(node.children[j], TokenOf(node.children[k]))
    ensures Unoptimized(node)
  {
    hide Single, TokenOf, Takes;
  }

  /** Regrowing one child changes only the routes that start with its token. */
  lemma {:induction false} RegrownRoutes(node: Node, token: Token, grown: Node, r: Route)
    requires Unoptimized(node) && Unoptimized(grown) && Single(grown) && TokenOf(grown) == TakenFor(node, token)
    ensures r in Routes(Regrown(node, token, grown)) <==>
      if r.tokens != [] && r.tokens[0] == TakenFor(node, token) then Route(r.tokens[1..], r.rule) in Routes(grown)
      else r in Routes(node)
    ensures r.tokens != [] && r.tokens[0] == TakenFor(node, token) ==>
      (r in Routes(node) <==> Route(r.tokens[1..], r.rule) in Routes(Stepped(node, token)))
  {
    SteppedFits(node, token);
    RegrownFits(node, token, grown);
    RegrownChildren(node, token, grown);
    var i, after := ChildFor(node.children, token), Regrown(node, token, grown);
    ChildrenAreSingle(node);
    ChildrenAreSingle(after);
    assert i == |node.children| ==> Stepped(node, token) == NewNode(token);
    assert i < |node.children| ==> Stepped(node, token) == node.children[i];
    hide Routes, Branch, Unoptimized, Regrown, ChildFor, Single, TokenOf, Stepped, NewNode;
    if r.tokens == [] {
      NoEmptyBelow(node, r);
      NoEmptyBelow(after, r);
    } else if r.tokens[0] == TakenFor(node, token) {
      RouteGoesThrough(after, r, i);
      if i < |node.children| {
        RouteGoesThrough(node, r, i);
      } else {
        NoRouteThrough(node, r);
      }
    } else {
      OtherRoute(node, after, i, grown, r);
    }
  }

  lemma {:induction false} ChildrenAreSingle(node: Node)
    requires Unoptimized(node)
    ensures forall j :: 0 <= j < |node.children| ==> Single(node.children[j])
  {
    hide Single, TokenOf;
  }

  /** A route that starts with another token. */
  lemma {:induction false} OtherRoute(node: Node, after: Node, i: nat, grown: Node, r: Route)
    requires Unoptimized(node) && Unoptimized(after) && r.tokens != []
    requires i < |after.children| && after.children[i] == grown && Single(grown) && TokenOf(grown) != r.tokens[0]
    requires |after.children| == (if i < |node.children| then |node.children| else i + 1) && i <= |node.children|
    requires i < |node.children| ==> Single(node.children[i]) && TokenOf(node.children[i]) == TokenOf(grown)
    requires forall j :: 0 <= j < |node.children| && j != i ==> after.children[j] == node.children[j]
    ensures r in Routes(after) <==> r in Routes(node)
  {
    ChildrenAreSingle(node);
    ChildrenAreSingle(after);
    hide Routes, Branch, Unoptimized, Single, TokenOf;
    if j :| 0 <= j < |node.children| && TokenOf(node.children[j]) == r.tokens[0] {
      RouteGoesThrough(node, r, j);
      RouteGoesThrough(after, r, j);
    } else {
      NoRouteThrough(node, r);
      NoRouteThrough(after, r);
    }
  }

  /** Only a node's own rule has no tokens. */
  lemma {:induction false} NoEmptyBelow(node: Node, r: Route)
    requires Unoptimized(node) && r.tokens == []
    ensures r in Routes(node) <==> node.rule != 0 && r.rule == node.rule
  {
    InRoutes(node, r);
    forall j | 0 <= j < |node.children| ensures r !in Branch(node.children[j]) {
      InBranch(node.children[j], r);
    }
  }

  /** Adding fails exactly when the tokens walked lead to a rule already;
      otherwise the trie has exactly one more route, the one walked. */
  lemma {:induction false} AddAddsWalked(node: Node, tokens: seq<Token>, rule: nat)
    requires Unoptimized(node) && rule != 0
    ensures Add(node, tokens, rule).None? <==> Taken(node, Walked(node, tokens))
    ensures Add(node, tokens, rule).Some? ==>
      var after := Add(node, tokens, rule).value;
      && Unoptimized(after) && after.key == node.key && after.param == node.param
      && OneMore(node, after, Route(Walked(node, tokens), rule))
    decreases |tokens|
  {
    if tokens == [] {
      NoEmptyBelow(node, Route([], node.rule));
      forall k ensures Route([], k) in Routes(node) <==> node.rule != 0 && k == node.rule {
        NoEmptyBelow(node, Route([], k));
      }
    } else {
      hide Routes, Unoptimized, Stepped, Regrown, Add;
      var token, rest := tokens[0], tokens[1..];
      var child := Stepped(node, token);
      SteppedFits(node, token);
      AddUnfolds(node, tokens, rule);
      AddAddsWalked(child, rest, rule);
      var walked := Walked(node, tokens);
      assert walked[0] == TakenFor(node, token) && walked[1..] == Walked(child, rest);
      TakenBelow(node, token, walked);
      var grew := Add(child, rest, rule);
      if grew.Some? {
        SameToken(child, grew.value);
        RegrownFits(node, token, grew.value);
        RoutesGrow(node, token, walked, grew.value, rule);
      }
    }
  }

  lemma {:induction false} AddUnfolds(node: Node, tokens: seq<Token>, rule: nat)
    requires tokens != []
    ensures Add(node, tokens, rule) ==
      match Add(Stepped(node, tokens[0]), tokens[1..], rule)
      case None => None
      case Some(grown) => Some(Regrown(node, tokens[0], grown))
  {
  }

  lemma SameToken(child: Node, grown: Node)
    requires Single(child) && grown.key == child.key && grown.param == child.param
    ensures Single(grown) && TokenOf(grown) == TokenOf(child)
  {
  }

  lemma {:induction false} TakenBelow(node: Node, token: Token, walked: seq<Token>)
    requires Unoptimized(node) && walked != [] && walked[0] == TakenFor(node, token)
    ensures Taken(node, walked) <==> Taken(Stepped(node, token), walked[1..])
  {
    hide Routes, Unoptimized, Stepped, Regrown;
    var child := Stepped(node, token);
    SteppedFits(node, token);
    forall k ensures Route(walked, k) in Routes(node) <==> Route(walked[1..], k) in Routes(child) {
      RegrownRoutes(node, token, child, Route(walked, k));
    }
  }

  lemma {:induction false} RoutesGrow(node: Node, token: Token, walked: seq<Token>, grown: Node, rule: nat)
    requires Unoptimized(node) && walked != [] && walked[0] == TakenFor(node, token)
    requires Unoptimized(grown) && Single(grown) && TokenOf(grown) == walked[0]
    requires OneMore(Stepped(node, token), grown, Route(walked[1..], rule))
    ensures OneMore(node, Regrown(node, token, grown), Route(walked, rule))
  {
    hide Routes, Unoptimized, Stepped, Regrown, Single, TokenOf;
    var rest := walked[1..];
    forall r ensures r in Routes(Regrown(node, token, grown)) <==> r in Routes(node) || r == Route(walked, rule) {
      RegrownRoutes(node, token, grown, r);
      if r.tokens != [] && r.tokens[0] == walked[0] {
        assert r == Route(walked, rule) <==> Route(r.tokens[1..], r.rule) == Route(rest, rule) by {
          assert r.tokens == [walked[0]] + r.tokens[1..] && walked == [walked[0]] + rest;
        }
      }
    }
  }

  // ----- When the pattern itself is added -----

  /** What registering a pattern promises: refused exactly when its tokens lead
      to a rule already, and otherwise one more route, with those tokens. */
  ghost predicate Registers(node: Node, tokens: seq<Token>, rule: nat) {
    match Add(node, tokens, rule)
    case None => Taken(node, tokens)
    case Some(after) => !Taken(node, tokens) && OneMore(node, after, Route(tokens, rule))
  }

  lemma {:induction false} WalkedIff(node: Node, tokens: seq<Token>)
    requires Unoptimized(node)
    ensures Walked(node, tokens) == tokens <==> !Mistaken(node, tokens)
    decreases |tokens|
  {
    if tokens != [] {
      hide Unoptimized, Stepped;
      SteppedFits(node, tokens[0]);
      var next := Stepped(node, tokens[0]);
      WalkedIff(next, tokens[1..]);
      var walked := Walked(node, tokens);
      assert walked[0] == TakenFor(node, tokens[0]) && walked[1..] == Walked(next, tokens[1..]);
      assert tokens == [tokens[0]] + tokens[1..] && walked == [walked[0]] + walked[1..];
    }
  }

  /** A route whose NUL would be taken for a parameter is not in the trie: no
      child for NUL comes behind a parameter. */
  lemma {:induction false} MistakenNotTaken(node: Node, tokens: seq<Token>)
    requires Unoptimized(node) && Mistaken(node, tokens)
    ensures !Taken(node, tokens)
    decreases |tokens|
  {
    var token, i := tokens[0], ChildFor(node.children, tokens[0]);
    SteppedFits(node, token);
    if TakenFor(node, token) == token {
      MistakenNotTaken(Stepped(node, token), tokens[1..]);
      TakenBelow(node, token, tokens);
    } else {
      forall j | 0 <= j < |node.children| ensures TokenOf(node.children[j]) != token {
        NoLaterChild(node, token, j);
      }
      forall k ensures Route(tokens, k) !in Routes(node) {
        NoRouteThrough(node, Route(tokens, k));
      }
    }
  }

  lemma NoLaterChild(node: Node, token: Token, j: nat)
    requires Unoptimized(node) && j < |node.children| && TakenFor(node, token) != token
    ensures Single(node.children[j]) && TokenOf(node.children[j]) != token
  {
    var i := ChildFor(node.children, token);
    SteppedFits(node, token);
    UnoptimizedChild(node, j);
    TakesIff(node.children[j], token);
    if i < j {
      UnoptimizedPair(node, i, j);
    }
  }

  /** Adding registers the pattern if and only if no NUL of it is taken for a
      parameter. */
  lemma AddAddsOneIff(node: Node, tokens: seq<Token>, rule: nat)
    requires Unoptimized(node) && rule != 0
    ensures Registers(node, tokens, rule) <==> !Mistaken(node, tokens)
  {
    hide Unoptimized, Add, Routes;
    AddAddsWalked(node, tokens, rule);
    WalkedIff(node, tokens);
    if Mistaken(node, tokens) {
      MistakenNotTaken(node, tokens);
      if Add(node, tokens, rule).Some? {
        assert Route(tokens, rule) !in Routes(node);
        assert Route(tokens, rule) !in Routes(Add(node, tokens, rule).value);
      }
    }
  }

  /** A pattern of one NUL character, added next to a parameter, registers its
      rule for the parameter instead. */
  lemma NulTakenForParameter()
    ensures
      var head := Node(0, "", None, [Node(0, "", Some(INT), [])]);
      && Unoptimized(head)
      && Mistaken(head, [Ch(NUL)])
      && Add(head, [Ch(NUL)], 7) == Some(Node(0, "", None, [Node(7, "", Some(INT), [])]))
  {
    var child := Node(0, "", Some(INT), []);
    var head := Node(0, "", None, [child]);
    assert Takes(child, Ch(NUL)) && ChildFor(head.children, Ch(NUL)) == 0;
    assert Add(child, [], 7) == Some(child.(rule := 7));
    assert [Ch(NUL)][1..] == [];
    assert head.children[..0] + [child.(rule := 7)] + head.children[1..] == [child.(rule := 7)];
  }

  lemma {:induction false} GoodNotMistaken(node: Node, tokens: seq<Token>)
    requires GoodTokens(tokens)
    ensures !Mistaken(node, tokens)
    decreases |tokens|
  {
    if tokens != [] {
      GoodNotMistaken(Stepped(node, tokens[0]), tokens[1..]);
    }
  }

  /** In particular a pattern without NUL is added as it stands. */
  lemma AddAddsOne(node: Node, tokens: seq<Token>, rule: nat)
    requires Unoptimized(node) && GoodTokens(tokens) && rule != 0
    ensures Add(node, tokens, rule).None? <==> Taken(node, tokens)
    ensures Add(node, tokens, rule).Some? ==>
      Unoptimized(Add(node, tokens, rule).value) && OneMore(node, Add(node, tokens, rule).value, Route(tokens, rule))
  {
    hide Unoptimized, Add, Routes;
    AddAddsWalked(node, tokens, rule);
    WalkedIff(node, tokens);
    GoodNotMistaken(node, tokens);
  }

  // ----- Routing as a whole -----

  datatype Rule = Rule(pattern: string, index: nat)

  /** A pattern the compile-time checks let through, with a real rule index. */
  ghost predicate Valid(rule: Rule) {
    && Tokenize(rule.pattern).Some?
    && GoodTokens(Tokenize(rule.pattern).value)
    && rule.index != 0
  }

  ghost predicate AllValid(rules: seq<Rule>) {
    forall i :: 0 <= i < |rules| ==> Valid(rules[i])
  }

  /** Two patterns with the same tokens, such as "<str>" and "<string>". */
  ghost predicate Collide(a: Rule, b: Rule) {
    Tokenize(a.pattern) == Tokenize(b.pattern)
  }

  const EMPTY_HEAD := Node(0, "", None, [])

  /** Adding rules one after the other to an empty trie. */
  ghost function Build(rules: seq<Rule>): Option<Node>
    requires AllValid(rules)
  {
    if rules == [] then Some(EMPTY_HEAD) else
    match Build(rules[..|rules| - 1])
    case None => None
    case Some(head) => var last := rules[|rules| - 1]; Add(head, Tokenize(last.pattern).value, last.index)
  }

  ghost predicate IsRouteOf(r: Route, rules: seq<Rule>)
    requires AllValid(rules)
  {
    exists i :: 0 <= i < |rules| && r == Route(Tokenize(rules[i].pattern).value, rules[i].index)
  }

  ghost predicate HasCollision(rules: seq<Rule>) {
    exists i, j :: 0 <= i < j < |rules| && Collide(rules[i], rules[j])
  }

  ghost predicate CollidesWith(rules: seq<Rule>, rule: Rule) {
    exists i :: 0 <= i < |rules| && Collide(rules[i], rule)
  }

  lemma CollisionAppend(front: seq<Rule>, last: Rule)
    ensures HasCollision(front + [last]) <==> HasCollision(front) || CollidesWith(front, last)
  {
    hide Collide;
    var rules := front + [last];
    if i, j :| 0 <= i < j < |front| && Collide(front[i], front[j]) {
      assert Collide(rules[i], rules[j]);
    }
    if i :| 0 <= i < |front| && Collide(front[i], last) {
      assert Collide(rules[i], rules[|front|]);
    }
    if i, j :| 0 <= i < j < |rules| && Collide(rules[i], rules[j]) {
      assert j < |front| ==> Collide(front[i], front[j]);
      assert j == |front| ==> Collide(front[i], last);
    }
  }

  lemma IsRouteAppend(front: seq<Rule>, last: Rule, r: Route)
    requires AllValid(front + [last])
    ensures AllValid(front) && Valid(last)
    ensures IsRouteOf(r, front + [last]) <==> IsRouteOf(r, front) || r == Route(Tokenize(last.pattern).value, last.index)
  {
    hide Tokenize;
    var rules := front + [last];
    assert forall i :: 0 <= i < |front| ==> front[i] == rules[i];
    assert Valid(rules[|front|]);
    if r == Route(Tokenize(last.pattern).value, last.index) {
      assert r == Route(Tokenize(rules[|front|].pattern).value, rules[|front|].index);
    }
  }

  lemma TakenIffCollides(head: Node, front: seq<Rule>, last: Rule)
    requires AllValid(front) && Valid(last)
    requires forall r :: r in Routes(head) <==> IsRouteOf(r, front)
    ensures Taken(head, Tokenize(last.pattern).value) <==> CollidesWith(front, last)
  {
    hide Tokenize, Routes;
    var tokens := Tokenize(last.pattern).value;
    if i :| 0 <= i < |front| && Collide(front[i], last) {
      assert IsRouteOf(Route(tokens, front[i].index), front);
    }
    if k :| Route(tokens, k) in Routes(head) {
      assert IsRouteOf(Route(tokens, k), front);
      var i :| 0 <= i < |front| && Route(tokens, k) == Route(Tokenize(front[i].pattern).value, front[i].index);
      assert Collide(front[i], last);
    }
  }

  /** The trie holds the rules and nothing else; building throws exactly when
      two patterns collide. */
  lemma {:induction false} BuildHolds(rules: seq<Rule>)
    requires AllValid(rules)
    ensures Build(rules).None? <==> HasCollision(rules)
    ensures Build(rules).Some? ==> Unoptimized(Build(rules).value)
    ensures Build(rules).Some? ==> forall r :: r in Routes(Build(rules).value) <==> IsRouteOf(r, rules)
  {
    if rules != [] {
      hide Tokenize, Routes, Add, HasCollision, CollidesWith, IsRouteOf, Unoptimized, Taken;
      var front, last := rules[..|rules| - 1], rules[|rules| - 1];
      assert rules == front + [last];
      BuildHolds(front);
      CollisionAppend(front, last);
      if Build(front).Some? {
        AddAddsOne(Build(front).value, Tokenize(last.pattern).value, last.index);
        TakenIffCollides(Build(front).value, front, last);
        forall r {
          IsRouteAppend(front, last, r);
        }
      }
    }
  }

  /** The specification of routing: the least index among the rules whose
      pattern matches, with what that pattern captured; 0 if none matches. */
  ghost predicate IsLeastMatch(sd: Strtod, rules: seq<Rule>, url: string, f: Found) {
    if f.rule == 0 then
      forall i :: 0 <= i < |rules| ==> Caught(sd, rules[i].pattern, url, NO_PARAMS) == None
    else
      && (exists i :: 0 <= i < |rules| && rules[i].index == f.rule
            && Caught(sd, rules[i].pattern, url, NO_PARAMS) == Some(f.params))
      && (forall i :: 0 <= i < |rules| && Caught(sd, rules[i].pattern, url, NO_PARAMS).Some? ==> f.rule <= rules[i].index)
  }

  /** `Pick` finds a least hit. */
  lemma {:induction false} PickIsLeast(sd: Strtod, routes: seq<Route>, url: string)
    requires forall i :: 0 <= i < |routes| ==> routes[i].rule != 0
    ensures
      var f := Pick(sd, routes, url, 0, NO_PARAMS);
      if f.rule == 0 then forall r :: r in routes ==> Match(sd, r.tokens, url) == None
      else
        && (exists r :: r in routes && r.rule == f.rule && Match(sd, r.tokens, url) == Some(f.params))
        && (forall r :: r in routes && Match(sd, r.tokens, url).Some? ==> f.rule <= r.rule)
  {
    if routes != [] {
      var front, last := routes[..|routes| - 1], routes[|routes| - 1];
      PickIsLeast(sd, front, url);
      assert forall r :: r in routes <==> r in front || r == last;
      assert last in routes;
    }
  }

  lemma {:induction false} RulesNonZero(node: Node)
    ensures forall i :: 0 <= i < |Routes(node)| ==> Routes(node)[i].rule != 0
    decreases node, 1
  {
    RulesNonZeroIn(node.children);
  }

  lemma {:induction false} RulesNonZeroIn(children: seq<Node>)
    ensures forall i :: 0 <= i < |RoutesIn(children)| ==> RoutesIn(children)[i].rule != 0
    decreases children, 0
  {
    if children != [] {
      RulesNonZeroIn(children[..|children| - 1]);
      RulesNonZero(children[|children| - 1]);
    }
  }

  /** Routing. For every list of valid rules that do not collide and every URL,
      lookup in the optimised trie returns the least matching rule with its
      captured parameters, and 0 when no rule matches. */
  lemma RoutingIsCorrect(sd: Strtod, rules: seq<Rule>, url: string)
    requires AllValid(rules)
    requires !HasCollision(rules)
    ensures Build(rules).Some?
    ensures IsLeastMatch(sd, rules, url, Cleaned(Find(sd, Optimize(Build(rules).value), url, 0, NO_PARAMS)))
  {
    hide Tokenize, Build, Routes, Pick, Find, Advance, Optimize, HasCollision, Unoptimized, Proper, GoodTokens;
    BuildHolds(rules);
    var head := Build(rules).value;
    UnoptimizedIsProper(head);
    OptimizeKeepsFind(sd, head, url);
    FindPicks(sd, head, url, 0, NO_PARAMS);
    RulesNonZero(head);
    PickIsLeast(sd, Routes(head), url);
    var f := Pick(sd, Routes(head), url, 0, NO_PARAMS);
    forall i | 0 <= i < |rules|
      ensures Route(Tokenize(rules[i].pattern).value, rules[i].index) in Routes(head)
    {
      assert IsRouteOf(Route(Tokenize(rules[i].pattern).value, rules[i].index), rules);
    }
    if f.rule != 0 {
      var r :| r in Routes(head) && r.rule == f.rule && Match(sd, r.tokens, url) == Some(f.params);
      assert IsRouteOf(r, rules);
    }
  }
}
