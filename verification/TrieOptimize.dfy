/** Path compression of the route trie. */
module TrieOptimize {
  import opened Decimal
  import opened Trie

  predicate IsSimpleNode(node: Node) {
    && node.rule == 0
    && |node.children| < 2
    && node.param == None
    && forall i :: 0 <= i < |node.children| ==> node.children[i].param == None
  }

  function Size(node: Node): (n: nat)
    ensures n >= 1
    decreases node, 1
  {
    1 + SizeIn(node.children)
  }

  function SizeIn(children: seq<Node>): nat
    decreases children, 0
  {
    if children == [] then 0 else SizeIn(children[..|children| - 1]) + Size(children[|children| - 1])
  }

  /** A simple node takes over its only child. */
  function Merge(node: Node): Node
    requires |node.children| == 1
  {
    var child := node.children[0];
    Node(child.rule, node.key + child.key, node.param, child.children)
  }

  lemma MergeShrinks(node: Node)
    requires |node.children| == 1
    ensures Size(Merge(node)) == Size(node) - 1
  {
    assert node.children[..0] == [];
    assert SizeIn(node.children) == Size(node.children[0]);
  }

  lemma {:induction false} ChildIsSmaller(children: seq<Node>, i: nat)
    requires i < |children|
    ensures Size(children[i]) <= SizeIn(children)
    decreases |children|
  {
    if i < |children| - 1 {
      ChildIsSmaller(children[..|children| - 1], i);
    }
  }

  /** `optimizeNode`; it ends because every merge removes a node. */
  function OptimizeNode(node: Node): Node
    decreases Size(node), 0
  {
    if node.children == [] then node
    else if IsSimpleNode(node) then
      MergeShrinks(node);
      OptimizeNode(Merge(node))
    else
      node.(children := OptimizeAll(node.children))
  }

  function OptimizeAll(children: seq<Node>): (r: seq<Node>)
    ensures |r| == |children|
    decreases SizeIn(children), 1
  {
    if children == [] then [] else
    ChildIsSmaller(children, |children| - 1);
    assert SizeIn(children[..|children| - 1]) < SizeIn(children);
    OptimizeAll(children[..|children| - 1]) + [OptimizeNode(children[|children| - 1])]
  }

  /** `Trie::optimize` leaves the head node alone. */
  function Optimize(head: Node): Node {
    head.(children := OptimizeAll(head.children))
  }

  lemma CharsConcat(s: string, t: string)
    ensures Chars(s + t) == Chars(s) + Chars(t)
  {
  }

  lemma PrefixedTwice(t1: seq<Token>, t2: seq<Token>, routes: seq<Route>)
    ensures Prefixed(t1, Prefixed(t2, routes)) == Prefixed(t1 + t2, routes)
  {
    forall i | 0 <= i < |routes|
      ensures Prefixed(t1, Prefixed(t2, routes))[i] == Prefixed(t1 + t2, routes)[i]
    {
      assert t1 + (t2 + routes[i].tokens) == (t1 + t2) + routes[i].tokens;
    }
  }

  /** Merging changes none of the routes through a node, nor their order. */
  lemma MergeKeepsBranch(node: Node)
    requires node.rule == 0 && |node.children| == 1 && node.param == None && node.children[0].param == None
    ensures Branch(Merge(node)) == Branch(node)
  {
    var child := node.children[0];
    assert node.children[..0] == [];
    assert RoutesIn(node.children) == [] + Branch(child) == Branch(child);
    assert Routes(node) == Branch(child);
    assert Routes(Merge(node)) == Routes(child);
    PrefixedTwice(Chars(node.key), Chars(child.key), Routes(child));
    CharsConcat(node.key, child.key);
  }

  /** Compression keeps the routes through a node exactly. */
  lemma {:induction false} OptimizeKeepsBranch(node: Node)
    requires Proper(node)
    ensures Branch(OptimizeNode(node)) == Branch(node)
    ensures Proper(OptimizeNode(node))
    ensures TokensOf(node) != [] ==> TokensOf(OptimizeNode(node)) != []
    decreases Size(node), 0
  {
    if node.children == [] {
    } else if IsSimpleNode(node) {
      MergeShrinks(node);
      MergeKeepsBranch(node);
      assert Proper(Merge(node));
      OptimizeKeepsBranch(Merge(node));
    } else {
      OptimizeKeepsRoutesIn(node.children);
    }
  }

  lemma {:induction false} OptimizeKeepsRoutesIn(children: seq<Node>)
    requires ProperIn(children)
    ensures RoutesIn(OptimizeAll(children)) == RoutesIn(children)
    ensures ProperIn(OptimizeAll(children))
    decreases SizeIn(children), 1
  {
    if children != [] {
      var front, last := children[..|children| - 1], children[|children| - 1];
      ChildIsSmaller(children, |children| - 1);
      assert SizeIn(front) < SizeIn(children);
      OptimizeKeepsRoutesIn(front);
      OptimizeKeepsBranch(last);
      var done := OptimizeAll(front);
      assert (done + [OptimizeNode(last)])[..|done|] == done;
    }
  }

  /** Compression preserves routing: for every URL the optimised trie gives the
      same rule index, and the same parameters when the index is not 0. */
  lemma OptimizeKeepsFind(sd: Strtod, head: Node, url: string)
    requires Proper(head)
    ensures Cleaned(Find(sd, Optimize(head), url, 0, NO_PARAMS)) == Cleaned(Find(sd, head, url, 0, NO_PARAMS))
    ensures Proper(Optimize(head))
  {
    OptimizeKeepsRoutesIn(head.children);
    FindPicks(sd, head, url, 0, NO_PARAMS);
    FindPicks(sd, Optimize(head), url, 0, NO_PARAMS);
  }

  lemma {:induction false} SizeBound(node: Node)
    ensures Size(OptimizeNode(node)) <= Size(node)
    decreases Size(node), 0
  {
    if node.children == [] {
    } else if IsSimpleNode(node) {
      MergeShrinks(node);
      SizeBound(Merge(node));
    } else {
      SizeBoundIn(node.children);
    }
  }

  lemma {:induction false} SizeBoundIn(children: seq<Node>)
    ensures SizeIn(OptimizeAll(children)) <= SizeIn(children)
    decreases SizeIn(children), 1
  {
    if children != [] {
      var front, last := children[..|children| - 1], children[|children| - 1];
      ChildIsSmaller(children, |children| - 1);
      assert SizeIn(front) < SizeIn(children);
      SizeBoundIn(front);
      SizeBound(last);
      var done := OptimizeAll(front);
      assert (done + [OptimizeNode(last)])[..|done|] == done;
    }
  }

  /** What compression achieves: below the head no node is left that could
      still be merged. */
  ghost predicate Compressed(node: Node)
    decreases node
  {
    && !(IsSimpleNode(node) && |node.children| == 1)
    && forall i :: 0 <= i < |node.children| ==> Compressed(node.children[i])
  }

  lemma {:induction false} OptimizeCompresses(node: Node)
    ensures Compressed(OptimizeNode(node))
    decreases Size(node), 0
  {
    if node.children == [] {
    } else if IsSimpleNode(node) {
      MergeShrinks(node);
      OptimizeCompresses(Merge(node));
    } else {
      OptimizeCompressesAll(node.children);
      OptimizeKeepsParams(node.children);
    }
  }

  lemma {:induction false} OptimizeCompressesAll(children: seq<Node>)
    ensures forall i :: 0 <= i < |children| ==> Compressed(OptimizeAll(children)[i])
    decreases SizeIn(children), 1
  {
    if children != [] {
      var front, last := children[..|children| - 1], children[|children| - 1];
      ChildIsSmaller(children, |children| - 1);
      assert SizeIn(front) < SizeIn(children);
      OptimizeCompressesAll(front);
      OptimizeCompresses(last);
    }
  }

  lemma {:induction false} OptimizeKeepsParam(node: Node)
    ensures OptimizeNode(node).param == node.param
    decreases Size(node), 0
  {
    if node.children != [] && IsSimpleNode(node) {
      MergeShrinks(node);
      OptimizeKeepsParam(Merge(node));
    }
  }

  lemma {:induction false} OptimizeKeepsParams(children: seq<Node>)
    ensures forall i :: 0 <= i < |children| ==> OptimizeAll(children)[i].param == children[i].param
    decreases |children|
  {
    if children != [] {
      OptimizeKeepsParams(children[..|children| - 1]);
      OptimizeKeepsParam(children[|children| - 1]);
    }
  }
}
