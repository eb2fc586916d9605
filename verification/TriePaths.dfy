/** Places in a linked trie, and what replacing the part below one of them means. */
module TriePaths {
  import opened Trie
  import opened TrieNodes

  // ----- In a trie of values -----

  predicate IsTreePath(t: Node, path: seq<nat>) {
    path == [] || (path[0] < |t.children| && IsTreePath(t.children[path[0]], path[1..]))
  }

  function TreeAt(t: Node, path: seq<nat>): Node
    requires IsTreePath(t, path)
  {
    if path == [] then t else TreeAt(t.children[path[0]], path[1..])
  }

  /** `t` with the part at `path` replaced. */
  function Graft(t: Node, path: seq<nat>, x: Node): Node
    requires IsTreePath(t, path)
  {
    if path == [] then x
    else t.(children := t.children[path[0] := Graft(t.children[path[0]], path[1..], x)])
  }

  lemma {:induction false} GraftAt(t: Node, path: seq<nat>, x: Node)
    requires IsTreePath(t, path)
    ensures IsTreePath(Graft(t, path, x), path) && TreeAt(Graft(t, path, x), path) == x
    decreases |path|
  {
    if path != [] {
      GraftAt(t.children[path[0]], path[1..], x);
    }
  }

  lemma {:induction false} GraftSame(t: Node, path: seq<nat>)
    requires IsTreePath(t, path)
    ensures Graft(t, path, TreeAt(t, path)) == t
    decreases |path|
  {
    if path != [] {
      GraftSame(t.children[path[0]], path[1..]);
    }
  }

  /** One step further down. */
  lemma {:induction false} TreeBelow(t: Node, path: seq<nat>, k: nat)
    requires IsTreePath(t, path) && k < |TreeAt(t, path).children|
    ensures IsTreePath(t, path + [k]) && TreeAt(t, path + [k]) == TreeAt(t, path).children[k]
    decreases |path|
  {
    if path == [] {
      assert (path + [k])[1..] == [];
    } else {
      assert (path + [k])[1..] == path[1..] + [k];
      TreeBelow(t.children[path[0]], path[1..], k);
    }
  }

  /** Replacing below a replaced part. */
  lemma {:induction false} GraftBelow(t: Node, path: seq<nat>, y: Node, k: nat, x: Node)
    requires IsTreePath(t, path) && k < |y.children|
    ensures IsTreePath(Graft(t, path, y), path + [k])
    ensures Graft(Graft(t, path, y), path + [k], x) == Graft(t, path, y.(children := y.children[k := x]))
    decreases |path|
  {
    if path == [] {
      assert (path + [k])[1..] == [];
    } else {
      assert (path + [k])[1..] == path[1..] + [k];
      GraftBelow(t.children[path[0]], path[1..], y, k, x);
    }
  }

  // ----- In linked nodes -----

  ghost predicate IsPath(s: Shape, path: seq<nat>) {
    path == [] || (path[0] < |s.below| && IsPath(s.below[path[0]], path[1..]))
  }

  ghost function At(s: Shape, path: seq<nat>): Shape
    requires IsPath(s, path)
  {
    if path == [] then s else At(s.below[path[0]], path[1..])
  }

  ghost function GraftShape(s: Shape, path: seq<nat>, x: Shape): Shape
    requires IsPath(s, path)
  {
    if path == [] then x
    else Shape(s.node, s.below[path[0] := GraftShape(s.below[path[0]], path[1..], x)])
  }

  lemma {:induction false} Below(s: Shape, path: seq<nat>, k: nat)
    requires IsPath(s, path) && k < |At(s, path).below|
    ensures IsPath(s, path + [k]) && At(s, path + [k]) == At(s, path).below[k]
    decreases |path|
  {
    if path == [] {
      assert (path + [k])[1..] == [];
    } else {
      assert (path + [k])[1..] == path[1..] + [k];
      Below(s.below[path[0]], path[1..], k);
    }
  }

  lemma {:induction false} GraftShapeAt(s: Shape, path: seq<nat>, x: Shape)
    requires IsPath(s, path)
    ensures IsPath(GraftShape(s, path, x), path) && At(GraftShape(s, path, x), path) == x
    decreases |path|
  {
    if path != [] {
      GraftShapeAt(s.below[path[0]], path[1..], x);
    }
  }

  /** The nodes outside the part at `path`. */
  ghost function Around(s: Shape, path: seq<nat>): set<TrieNode>
    requires IsPath(s, path)
    decreases |path|
  {
    if path == [] then {}
    else {s.node} + NodesBut(s.below, path[0]) + Around(s.below[path[0]], path[1..])
  }

  ghost function NodesBut(below: seq<Shape>, k: nat): set<TrieNode> {
    set i, n | 0 <= i < |below| && i != k && n in Nodes(below[i]) :: n
  }

  /** The nodes outside the part at `path` hold their share of `t`. */
  ghost predicate Surrounds(s: Shape, path: seq<nat>, t: Node)
    requires IsPath(s, path)
    reads Around(s, path)
    decreases |path|
  {
    if path == [] then true
    else
      && s.node.rule == t.rule && s.node.key == t.key && s.node.param == t.param
      && |s.node.children| == |s.below| == |t.children|
      && (forall i :: 0 <= i < |s.below| ==> s.node.children[i] == s.below[i].node)
      && (forall i :: 0 <= i < |s.below| && i != path[0] ==> Holds(s.below[i], t.children[i]))
      && Surrounds(s.below[path[0]], path[1..], t.children[path[0]])
  }

  /** A trie is a part of it and its surroundings. */
  lemma {:induction false} Parted(s: Shape, path: seq<nat>, t: Node)
    requires IsPath(s, path) && Holds(s, t)
    ensures Surrounds(s, path, t) && IsTreePath(t, path) && Holds(At(s, path), TreeAt(t, path))
    decreases |path|
  {
    if path != [] {
      Parted(s.below[path[0]], path[1..], t.children[path[0]]);
    }
  }

  lemma {:induction false} Joined(s: Shape, path: seq<nat>, t: Node, x: Shape, y: Node)
    requires IsPath(s, path) && Surrounds(s, path, t) && IsTreePath(t, path)
    requires x.node == At(s, path).node && Holds(x, y)
    ensures Holds(GraftShape(s, path, x), Graft(t, path, y)) && GraftShape(s, path, x).node == s.node
    decreases |path|
  {
    if path != [] {
      Joined(s.below[path[0]], path[1..], t.children[path[0]], x, y);
    }
  }

  /** The surroundings do not touch the part. */
  lemma {:induction false} Apart(s: Shape, path: seq<nat>)
    requires IsPath(s, path) && Tree(s)
    ensures Tree(At(s, path)) && Nodes(At(s, path)) <= Nodes(s)
    ensures Around(s, path) <= Nodes(s) && Around(s, path) !! Nodes(At(s, path))
    decreases |path|
  {
    hide Nodes, NodesIn, NodesBut, Tree, Forest;
    if path != [] {
      var k := path[0];
      TreeParts(s);
      ChildTree(s.below, k);
      OthersApart(s.below, k);
      Apart(s.below[k], path[1..]);
    }
  }

  lemma ChildTree(below: seq<Shape>, k: nat)
    requires Forest(below) && k < |below|
    ensures Tree(below[k]) && Nodes(below[k]) <= NodesIn(below)
  {
    hide Nodes, NodesIn, Tree;
  }

  /** The other children share nothing with this one. */
  lemma OthersApart(below: seq<Shape>, k: nat)
    requires Forest(below) && k < |below|
    ensures NodesBut(below, k) <= NodesIn(below) && NodesBut(below, k) !! Nodes(below[k])
  {
    hide Nodes, Tree, NodesIn;
    forall n | n in NodesBut(below, k) ensures n in NodesIn(below) && n !in Nodes(below[k]) {
      var i :| 0 <= i < |below| && i != k && n in Nodes(below[i]);
      OtherApart(below, i, k);
    }
  }

  lemma OtherApart(below: seq<Shape>, i: nat, k: nat)
    requires Forest(below) && i < |below| && k < |below| && i != k
    ensures Nodes(below[i]) <= NodesIn(below) && Nodes(below[i]) !! Nodes(below[k])
  {
    hide Nodes, Tree, NodesIn;
    if i < k {
      assert Nodes(below[i]) !! Nodes(below[k]);
    } else {
      assert Nodes(below[k]) !! Nodes(below[i]);
    }
  }

  /** Replacing a part by one over the same nodes and new ones keeps a tree. */
  lemma {:induction false} GraftedTree(s: Shape, path: seq<nat>, x: Shape, extra: set<TrieNode>)
    requires IsPath(s, path) && Tree(s) && Tree(x)
    requires Nodes(x) <= Nodes(At(s, path)) + extra && extra !! Nodes(s)
    ensures Tree(GraftShape(s, path, x)) && Nodes(GraftShape(s, path, x)) <= Nodes(s) + extra
    decreases |path|
  {
    hide Nodes, NodesIn, Tree, Forest;
    if path != [] {
      var k := path[0];
      TreeParts(s);
      ChildTree(s.below, k);
      GraftedTree(s.below[k], path[1..], x, extra);
      var y := GraftShape(s.below[k], path[1..], x);
      GraftedForest(s.below, k, y, extra);
      Rooted(s.node, s.below[k := y]);
    }
  }

  lemma Rooted(node: TrieNode, below: seq<Shape>)
    requires Forest(below) && node !in NodesIn(below)
    ensures Tree(Shape(node, below)) && Nodes(Shape(node, below)) == {node} + NodesIn(below)
  {
    hide NodesIn;
  }

  lemma GraftedForest(below: seq<Shape>, k: nat, x: Shape, extra: set<TrieNode>)
    requires k < |below| && Forest(below) && Tree(x)
    requires Nodes(x) <= Nodes(below[k]) + extra && extra !! NodesIn(below)
    ensures Forest(below[k := x]) && NodesIn(below[k := x]) <= NodesIn(below) + extra
  {
    hide Nodes, Tree;
    var after := below[k := x];
    forall i, j | 0 <= i < j < |after| ensures Nodes(after[i]) !! Nodes(after[j]) {
      assert Nodes(below[i]) !! Nodes(below[j]);
      assert Nodes(below[i]) <= NodesIn(below) && Nodes(below[j]) <= NodesIn(below);
    }
    forall n | n in NodesIn(after) ensures n in NodesIn(below) + extra {
      var i :| 0 <= i < |after| && n in Nodes(after[i]);
      assert Nodes(below[i]) <= NodesIn(below);
    }
  }
}
