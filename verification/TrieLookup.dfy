/** Lookup in the linked trie, with the captured parameters on shared stacks. */
module TrieLookup {
  import opened Decimal
  import opened Trie
  import opened TrieNodes
  import opened TrieBuilder
  import RouteTable

  /** `routing_params`, pushed to and popped from by every level of `find`. */
  class RoutingParams {
    var values: Params

    constructor ()
      ensures values == NO_PARAMS
    {
      values := NO_PARAMS;
    }
  }

  /** The stack of the given kind without its last value. */
  function Popped(kind: ParamType, ps: Params): Params {
    match kind
    case INT => if ps.ints == [] then ps else ps.(ints := ps.ints[..|ps.ints| - 1])
    case UINT => if ps.uints == [] then ps else ps.(uints := ps.uints[..|ps.uints| - 1])
    case DOUBLE => if ps.doubles == [] then ps else ps.(doubles := ps.doubles[..|ps.doubles| - 1])
    case _ => if ps.strings == [] then ps else ps.(strings := ps.strings[..|ps.strings| - 1])
  }

  lemma PopUndoesCapture(sd: Strtod, kind: ParamType, s: string, ps: Params)
    requires s != [] && Capture(sd, kind, s, ps).Some?
    ensures Popped(kind, Capture(sd, kind, s, ps).value.1) == ps
  {
  }

  /** `find`: it leaves the parameters as they were. */
  method Find(node: TrieNode, sd: Strtod, url: string, pos: nat, params: RoutingParams, ghost s: Shape, ghost t: Node)
    returns (found: Found)
    requires node == s.node && Holds(s, t) && pos <= |url|
    modifies params
    ensures params.values == old(params.values)
    ensures found == Trie.Find(sd, t, url, pos, old(params.values))
    decreases t, 1
  {
    hide Nodes, FindIn, Through;
    if pos == |url| {
      return Found(node.rule, params.values);
    }
    found := NOTHING;
    NoChildren(sd, url, pos, params.values);
    ghost var ps := params.values;
    var i := 0;
    while i < |node.children|
      invariant 0 <= i <= |node.children| && params.values == ps
      invariant Holds(s, t) && found == FindIn(sd, t.children[..i], url, pos, ps)
    {
      LoopStep(sd, t, url, pos, ps, i);
      label before:
      var ret := Try(node.children[i], sd, url, pos, params, s.below[i], t.children[i]);
      assert old@before(allocated(Nodes(s))) && unchanged@before(Nodes(s));
      if ret.rule != 0 && (found.rule == 0 || found.rule > ret.rule) {
        found := ret;
      }
      i := i + 1;
    }
    assert t.children[..i] == t.children;
  }

  lemma NoChildren(sd: Strtod, url: string, pos: nat, ps: Params)
    requires pos < |url|
    ensures FindIn(sd, [], url, pos, ps) == NOTHING
  {
  }

  lemma LoopStep(sd: Strtod, t: Node, url: string, pos: nat, ps: Params, i: nat)
    requires i < |t.children| && pos < |url|
    ensures FindIn(sd, t.children[..i + 1], url, pos, ps)
      == Better(FindIn(sd, t.children[..i], url, pos, ps), Through(sd, t.children[i], url, pos, ps))
  {
    hide Trie.Find;
    assert t.children[..i + 1][..i] == t.children[..i];
  }

  method Try(child: TrieNode, sd: Strtod, url: string, pos: nat, params: RoutingParams, ghost s: Shape, ghost t: Node)
    returns (ret: Found)
    requires child == s.node && Holds(s, t) && pos < |url|
    modifies params
    ensures params.values == old(params.values)
    ensures ret == Through(sd, t, url, pos, old(params.values))
    decreases t, 2
  {
    hide Nodes, Trie.Find;
    if child.param.Some? {
      var kind := child.param.value;
      var captured := Capture(sd, kind, url[pos..], params.values);
      if captured.None? {
        return NOTHING;
      }
      PopUndoesCapture(sd, kind, url[pos..], params.values);
      label before:
      params.values := captured.value.1;
      assert old@before(allocated(Nodes(s))) && unchanged@before(Nodes(s));
      ret := Find(child, sd, url, pos + captured.value.0, params, s, t);
      params.values := Popped(kind, params.values);
    } else if Agrees(child.key, url, pos) {
      ret := Find(child, sd, url, pos + |child.key|, params, s, t);
    } else {
      ret := NOTHING;
    }
  }

  // ----- Routing as a whole -----

  /** Registering rules, compressing the trie and looking a URL up: the least
      rule whose pattern matches, with its captures; a pattern registered twice
      is reported. */
  method Route(rules: seq<RouteTable.Rule>, sd: Strtod, url: string) returns (threw: bool, found: Found)
    requires RouteTable.AllValid(rules)
    ensures threw <==> RouteTable.HasCollision(rules)
    ensures !threw ==> RouteTable.IsLeastMatch(sd, rules, url, Cleaned(found))
  {
    hide RouteTable.Build, RouteTable.HasCollision, RouteTable.IsLeastMatch, Nodes, Tree, Holds, RouteTable.Tokenize, RouteTable.Add;
    found, threw := NOTHING, false;
    var trie := new RouteTrie();
    var i := 0;
    NoRules();
    assert rules[..0] == [];
    while i < |rules|
      invariant 0 <= i <= |rules| && trie.Valid() && !threw
      invariant fresh(trie) && fresh(Nodes(trie.shape))
      invariant RouteTable.AllValid(rules[..i]) && RouteTable.Build(rules[..i]) == Some(trie.tree)
    {
      OneRuleMore(rules, i);
      threw := trie.Add(rules[i].pattern, rules[i].index);
      if threw {
        RouteTable.BuildHolds(rules[..i + 1]);
        CollisionStays(rules, i + 1);
        return;
      }
      i := i + 1;
    }
    assert rules[..i] == rules;
    RouteTable.BuildHolds(rules);
    trie.Optimize();
    RouteTable.RoutingIsCorrect(sd, rules, url);
    label before:
    var params := new RoutingParams();
    assert old@before(allocated(Nodes(trie.shape))) && unchanged@before(Nodes(trie.shape));
    found := Find(trie.head, sd, url, 0, params, trie.shape, trie.tree);
  }

  lemma NoRules()
    ensures RouteTable.Build([]) == Some(RouteTable.EMPTY_HEAD)
  {
  }

  lemma OneRuleMore(rules: seq<RouteTable.Rule>, i: nat)
    requires i < |rules| && RouteTable.AllValid(rules) && RouteTable.Build(rules[..i]).Some?
    ensures RouteTable.AllValid(rules[..i + 1]) && RouteTable.Tokenize(rules[i].pattern).Some?
    ensures RouteTable.Build(rules[..i + 1])
      == RouteTable.Add(RouteTable.Build(rules[..i]).value, RouteTable.Tokenize(rules[i].pattern).value, rules[i].index)
  {
    assert RouteTable.Valid(rules[i]);
    assert rules[..i + 1][..i] == rules[..i];
  }

  lemma CollisionStays(rules: seq<RouteTable.Rule>, n: nat)
    requires n <= |rules| && RouteTable.HasCollision(rules[..n])
    ensures RouteTable.HasCollision(rules)
  {
  }
}
