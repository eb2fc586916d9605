/** The trie object: `add` walks down the linked nodes, creating what is missing,
    and `optimize` compresses them in place. */
module TrieBuilder {
  import opened Decimal
  import opened Trie
  import opened TrieNodes
  import opened TriePaths
  import Memory
  import RouteTable
  import TrieOptimize

  /** The result of an addition below `path`, seen from the top. */
  function Lifted(t: Node, path: seq<nat>, r: Option<Node>): Option<Node>
    requires IsTreePath(t, path)
  {
    match r case None => None case Some(x) => Some(Graft(t, path, x))
  }

  /** Following an existing child. */
  lemma Followed(t: Node, path: seq<nat>, tokens: seq<Token>, rule: nat)
    requires IsTreePath(t, path) && tokens != []
    requires RouteTable.ChildFor(TreeAt(t, path).children, tokens[0]) < |TreeAt(t, path).children|
    ensures
      var k := RouteTable.ChildFor(TreeAt(t, path).children, tokens[0]);
      && IsTreePath(t, path + [k]) && TreeAt(t, path + [k]) == TreeAt(t, path).children[k]
      && Lifted(t, path, RouteTable.Add(TreeAt(t, path), tokens, rule))
         == Lifted(t, path + [k], RouteTable.Add(TreeAt(t, path + [k]), tokens[1..], rule))
  {
    var n := TreeAt(t, path);
    var k := RouteTable.ChildFor(n.children, tokens[0]);
    TreeBelow(t, path, k);
    GraftSame(t, path);
    var r := RouteTable.Add(n.children[k], tokens[1..], rule);
    if r.Some? {
      GraftBelow(t, path, n, k, r.value);
      assert n.children[..k] + [r.value] + n.children[k + 1..] == n.children[k := r.value];
    }
  }

  /** Creating a child. */
  lemma Created(t: Node, path: seq<nat>, tokens: seq<Token>, rule: nat)
    requires IsTreePath(t, path) && tokens != []
    requires RouteTable.ChildFor(TreeAt(t, path).children, tokens[0]) == |TreeAt(t, path).children|
    ensures
      var n, x := TreeAt(t, path), RouteTable.NewNode(tokens[0]);
      var k, y := |n.children|, n.(children := n.children + [x]);
      var u := Graft(t, path, y);
      && IsTreePath(u, path + [k]) && TreeAt(u, path + [k]) == x
      && Lifted(t, path, RouteTable.Add(n, tokens, rule)) == Lifted(u, path + [k], RouteTable.Add(x, tokens[1..], rule))
  {
    var n, x := TreeAt(t, path), RouteTable.NewNode(tokens[0]);
    var k, y := |n.children|, n.(children := n.children + [x]);
    var u := Graft(t, path, y);
    GraftAt(t, path, y);
    TreeBelow(u, path, k);
    var r := RouteTable.Add(x, tokens[1..], rule);
    if r.Some? {
      GraftBelow(t, path, y, k, r.value);
      assert n.children[..k] + [r.value] + n.children[k..] == y.children[k := r.value];
    }
  }

  lemma LiftedTop(t: Node, r: Option<Node>)
    ensures Lifted(t, [], r) == r
  {
  }

  lemma EndOfPattern(url: string)
    ensures RouteTable.Tokenize(url[|url|..]) == Some([])
  {
  }

  lemma HeldRule(s: Shape, t: Node)
    requires Holds(s, t)
    ensures s.node.rule == t.rule
  {
  }

  lemma Done(t: Node, path: seq<nat>, rule: nat)
    requires IsTreePath(t, path)
    ensures
      var n := TreeAt(t, path);
      Lifted(t, path, RouteTable.Add(n, [], rule)) == if n.rule != 0 then None else Some(Graft(t, path, n.(rule := rule)))
  {
  }

  class RouteTrie {
    const head: TrieNode
    ghost var shape: Shape
    ghost var tree: Node

    ghost predicate Valid()
      reads this, Nodes(shape)
    {
      shape.node == head && Tree(shape) && Holds(shape, tree)
    }

    constructor ()
      ensures Valid() && fresh(Nodes(shape)) && tree == RouteTable.EMPTY_HEAD
    {
      var node := new TrieNode();
      head := node;
      shape := Shape(node, []);
      tree := RouteTable.EMPTY_HEAD;
    }

    /** `add`. It reports a second rule for the same pattern and then leaves the
        trie as it was; otherwise the trie becomes what adding below the head
        makes of it. On a '<' that starts no parameter it would not return. */
    method Add(url: string, rule: nat) returns (threw: bool)
      requires Valid() && RouteTable.Tokenize(url).Some?
      modifies this, Nodes(shape)
      ensures Valid() && forall o :: o in Nodes(shape) ==> o in old(Nodes(shape)) || fresh(o)
      ensures
        var r := RouteTable.Add(old(tree), RouteTable.Tokenize(url).value, rule);
        (threw <==> r.None?) && tree == if threw then old(tree) else r.value
    {
      hide RouteTable.Add, RouteTable.Tokenize, Lifted, Tree, Nodes, Holds, Graft;
      var i := 0;
      var idx := head;
      assert url[0..] == url;
      LiftedTop(tree, RouteTable.Add(tree, RouteTable.Tokenize(url).value, rule));
      ghost var goal := RouteTable.Add(tree, RouteTable.Tokenize(url).value, rule);
      ghost var path: seq<nat> := [];
      while i < |url|
        invariant 0 <= i <= |url| && RouteTable.Tokenize(url[i..]).Some?
        invariant Valid() && forall o :: o in Nodes(shape) ==> o in old(Nodes(shape)) || fresh(o)
        invariant IsPath(shape, path) && At(shape, path).node == idx && IsTreePath(tree, path)
        invariant goal == Lifted(tree, path, RouteTable.Add(TreeAt(tree, path), RouteTable.Tokenize(url[i..]).value, rule))
        invariant tree == old(tree) || (TreeAt(tree, path).rule == 0 && TreeAt(tree, path).children == [])
        decreases |url| - i
      {
        Apart(shape, path);
        RootIn(At(shape, path));
        label before:
        var token, used := ReadToken(url, i);
        assert old@before(allocated(Nodes(shape))) && unchanged@before(Nodes(shape));
        idx, path := Step(idx, token, path, RouteTable.Tokenize(url[i..]).value, rule);
        i := i + used;
      }
      EndOfPattern(url);
      Apart(shape, path);
      RootIn(At(shape, path));
      Parted(shape, path, tree);
      Done(tree, path, rule);
      HeldRule(At(shape, path), TreeAt(tree, path));
      if idx.rule != 0 {
        return true;
      }
      SetRule(idx, rule, path);
      return false;
    }

    /** One turn of the loop: into the child for the token, created if it is missing. */
    method Step(idx: TrieNode, token: Token, ghost path: seq<nat>, ghost tokens: seq<Token>, ghost rule: nat)
      returns (next: TrieNode, ghost further: seq<nat>)
      requires Valid() && IsPath(shape, path) && At(shape, path).node == idx && IsTreePath(tree, path)
      requires tokens != [] && tokens[0] == token
      modifies this, idx
      ensures Valid() && Nodes(shape) <= old(Nodes(shape)) + {next} && (next in old(Nodes(shape)) || fresh(next))
      ensures IsPath(shape, further) && At(shape, further).node == next && IsTreePath(tree, further)
      ensures Lifted(old(tree), path, RouteTable.Add(TreeAt(old(tree), path), tokens, rule))
        == Lifted(tree, further, RouteTable.Add(TreeAt(tree, further), tokens[1..], rule))
      ensures
        || (tree == old(tree) && TreeAt(tree, path).children != [])
        || (TreeAt(tree, further).rule == 0 && TreeAt(tree, further).children == [])
    {
      hide RouteTable.Add, Lifted, Tree, Nodes;
      ghost var sub, n := At(shape, path), TreeAt(tree, path);
      Parted(shape, path, tree);
      label before:
      var k := FindChild(idx.children, token, sub.below, n.children);
      assert old@before(allocated(Nodes(shape))) && unchanged@before(Nodes(shape));
      if k < |idx.children| {
        Followed(tree, path, tokens, rule);
        Below(shape, path, k);
        Apart(shape, path + [k]);
        RootIn(At(shape, path + [k]));
        return idx.children[k], path + [k];
      }
      Created(tree, path, tokens, rule);
      next := NewChild(idx, token, path);
      further := path + [k];
    }

    /** `new_node`, with its key or parameter set. */
    method NewChild(idx: TrieNode, token: Token, ghost path: seq<nat>) returns (next: TrieNode)
      requires Valid() && IsPath(shape, path) && At(shape, path).node == idx && IsTreePath(tree, path)
      modifies this, idx
      ensures Valid() && Nodes(shape) <= old(Nodes(shape)) + {next} && fresh(next)
      ensures
        var n := TreeAt(old(tree), path);
        var k := |n.children|;
        && tree == Graft(old(tree), path, n.(children := n.children + [RouteTable.NewNode(token)]))
        && IsPath(shape, path + [k]) && At(shape, path + [k]).node == next
    {
      hide Nodes, NodesIn, Tree, Holds, Around, Surrounds;
      ghost var s, t := shape, tree;
      ghost var sub, n := At(s, path), TreeAt(t, path);
      Parted(s, path, t);
      Apart(s, path);
      RootIn(sub);
      label before:
      next := AppendChild(idx, token, sub, n);
      assert old@before(allocated(Nodes(s))) && old@before(Surrounds(s, path, t));
      assert unchanged@before(Around(s, path));
      ghost var x := Shape(idx, sub.below + [Shape(next, [])]);
      ghost var y := n.(children := n.children + [RouteTable.NewNode(token)]);
      Joined(s, path, t, x, y);
      GraftedTree(s, path, x, {next});
      GraftShapeAt(s, path, x);
      Below(GraftShape(s, path, x), path, |n.children|);
      shape, tree := GraftShape(s, path, x), Graft(t, path, y);
    }

    method SetRule(idx: TrieNode, rule: nat, ghost path: seq<nat>)
      requires Valid() && IsPath(shape, path) && At(shape, path).node == idx && IsTreePath(tree, path)
      modifies this, idx
      ensures Valid() && Nodes(shape) <= old(Nodes(shape))
      ensures tree == Graft(old(tree), path, TreeAt(old(tree), path).(rule := rule))
    {
      hide Nodes, NodesIn, Tree, Holds, Around, Surrounds;
      ghost var s, t := shape, tree;
      ghost var sub, n := At(s, path), TreeAt(t, path);
      Parted(s, path, t);
      Apart(s, path);
      RootIn(sub);
      label before:
      PutRule(idx, rule, sub, n);
      assert old@before(allocated(Nodes(s))) && old@before(Surrounds(s, path, t));
      assert unchanged@before(Around(s, path));
      Joined(s, path, t, sub, n.(rule := rule));
      GraftedTree(s, path, sub, {});
      shape, tree := GraftShape(s, path, sub), Graft(t, path, n.(rule := rule));
    }

    /** `optimize` compresses below the head. */
    method Optimize()
      requires Valid()
      modifies this, Nodes(shape)
      ensures Valid() && Nodes(shape) <= old(Nodes(shape))
      ensures tree == TrieOptimize.Optimize(old(tree))
    {
      hide Nodes, NodesIn, Tree, TrieOptimize.OptimizeAll;
      TreeParts(shape);
      ghost var rs := OptimizeChildren(head.children, shape.below, tree.children);
      TreeFrom(shape, Shape(head, rs));
      shape := Shape(head, rs);
      tree := TrieOptimize.Optimize(tree);
    }
  }

  lemma RootIn(s: Shape)
    ensures s.node in Nodes(s)
  {
  }

  /** The rule of one node, the nodes below it as they were. */
  method PutRule(idx: TrieNode, rule: nat, ghost sub: Shape, ghost n: Node)
    requires idx == sub.node && Tree(sub) && Holds(sub, n)
    modifies idx
    ensures Holds(sub, n.(rule := rule))
  {
    hide Nodes, NodesIn, Tree;
    TreeParts(sub);
    label before:
    idx.rule := rule;
    assert old@before(allocated(NodesIn(sub.below))) && unchanged@before(NodesIn(sub.below));
    forall i | 0 <= i < |sub.below| ensures Holds(sub.below[i], n.children[i]) {
      assert Nodes(sub.below[i]) <= NodesIn(sub.below);
      assert old@before(Holds(sub.below[i], n.children[i]));
    }
  }

  /** A new node behind the children of `idx`. */
  method AppendChild(idx: TrieNode, token: Token, ghost sub: Shape, ghost n: Node) returns (next: TrieNode)
    requires idx == sub.node && Tree(sub) && Holds(sub, n)
    modifies idx
    ensures fresh(next)
    ensures
      var x := Shape(idx, sub.below + [Shape(next, [])]);
      Tree(x) && Nodes(x) <= Nodes(sub) + {next} && Holds(x, n.(children := n.children + [RouteTable.NewNode(token)]))
  {
    hide Nodes, NodesIn, Tree;
    TreeParts(sub);
    label before:
    next := new TrieNode();
    match token {
      case Ch(c) => next.key := [c];
      case Par(kind) => next.param := Some(kind);
    }
    ghost var leaf := Shape(next, []);
    assert Holds(leaf, RouteTable.NewNode(token));
    assert old@before(allocated(NodesIn(sub.below)));
    idx.children := idx.children + [next];
    assert unchanged@before(NodesIn(sub.below));
    forall i | 0 <= i < |sub.below| ensures Holds(sub.below[i], n.children[i]) {
      assert Nodes(sub.below[i]) <= NodesIn(sub.below);
      assert old@before(Holds(sub.below[i], n.children[i]));
    }
    LeafAdded(sub, next);
  }

  lemma LeafAdded(sub: Shape, next: TrieNode)
    requires Tree(sub) && next !in Nodes(sub)
    ensures
      var x := Shape(sub.node, sub.below + [Shape(next, [])]);
      Tree(x) && Nodes(x) <= Nodes(sub) + {next}
  {
    hide Nodes, Tree, NodesIn;
    var leaf := Shape(next, []);
    LeafIsTree(next);
    TreeParts(sub);
    var below := sub.below + [leaf];
    forall i, j | 0 <= i < j < |below| ensures Nodes(below[i]) !! Nodes(below[j]) {
      assert Nodes(below[i]) <= NodesIn(sub.below);
    }
    OneMoreIn(sub.below, leaf);
    Rooted(sub.node, below);
  }

  lemma LeafIsTree(next: TrieNode)
    ensures Tree(Shape(next, [])) && Nodes(Shape(next, [])) == {next}
  {
  }

  lemma OneMoreIn(below: seq<Shape>, leaf: Shape)
    ensures NodesIn(below + [leaf]) <= NodesIn(below) + Nodes(leaf)
  {
    hide Nodes;
  }

  /** The first child that takes the token. */
  method FindChild(children: seq<TrieNode>, token: Token, ghost below: seq<Shape>, ghost ts: seq<Node>) returns (k: nat)
    requires AllHold(children, below, ts)
    ensures k == RouteTable.ChildFor(ts, token)
  {
    k := 0;
    while k < |children| && !TakesHere(children[k], token)
      invariant 0 <= k <= |children|
      invariant forall j :: 0 <= j < k ==> !RouteTable.Takes(ts[j], token)
    {
      assert Holds(below[k], ts[k]);
      k := k + 1;
    }
    assert k < |children| ==> Holds(below[k], ts[k]);
  }

  predicate TakesHere(child: TrieNode, token: Token)
    reads child
  {
    match token
    case Ch(c) => (if child.key == [] then Memory.NUL else child.key[0]) == c
    case Par(kind) => child.param == Some(kind)
  }

  lemma TokenAt(url: string, i: nat)
    requires i < |url| && RouteTable.Tokenize(url[i..]).Some?
    ensures url[i] != '<' ==>
      && RouteTable.Tokenize(url[i + 1..]).Some?
      && RouteTable.Tokenize(url[i..]).value == [Ch(url[i])] + RouteTable.Tokenize(url[i + 1..]).value
    ensures url[i] == '<' ==>
      && RouteTable.TraitAt(url[i..], 0).Some?
      && var (k, kind) := RouteTable.TraitAt(url[i..], 0).value;
      && RouteTable.Tokenize(url[i + k..]).Some?
      && RouteTable.Tokenize(url[i..]).value == [Par(kind)] + RouteTable.Tokenize(url[i + k..]).value
  {
    var s := url[i..];
    assert s[1..] == url[i + 1..];
    if url[i] == '<' {
      var t := RouteTable.TraitAt(s, 0);
      assert t.Some?;
      assert s[t.value.0..] == url[i + t.value.0..];
    }
  }

  lemma NextTrait(s: string, x: nat)
    requires x < |RouteTable.TRAITS|
    ensures
      var (name, kind) := RouteTable.TRAITS[x];
      RouteTable.TraitAt(s, x) == if name <= s then Some((|name|, kind)) else RouteTable.TraitAt(s, x + 1)
  {
  }

  lemma NoMoreTraits(s: string)
    ensures RouteTable.TraitAt(s, |RouteTable.TRAITS|) == None
  {
  }

  /** The token at `i` and its length: the first parameter name that fits, or a character. */
  method ReadToken(url: string, i: nat) returns (token: Token, used: nat)
    requires i < |url| && RouteTable.Tokenize(url[i..]).Some?
    ensures 0 < used <= |url| - i && RouteTable.Tokenize(url[i + used..]).Some?
    ensures RouteTable.Tokenize(url[i..]).value == [token] + RouteTable.Tokenize(url[i + used..]).value
  {
    hide RouteTable.Tokenize, RouteTable.TraitAt;
    ghost var s := url[i..];
    TokenAt(url, i);
    if url[i] != '<' {
      return Ch(url[i]), 1;
    }
    var x := 0;
    while x < |RouteTable.TRAITS|
      invariant 0 <= x <= |RouteTable.TRAITS|
      invariant RouteTable.TraitAt(s, x) == RouteTable.TraitAt(s, 0)
    {
      var (name, kind) := RouteTable.TRAITS[x];
      NextTrait(s, x);
      if name <= url[i..] {
        return Par(kind), |name|;
      }
      x := x + 1;
    }
    NoMoreTraits(s);
    assert false;
  }
}
