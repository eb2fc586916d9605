/** The route trie as linked nodes: path compression in place. */
module TrieNodes {
  import opened Decimal
  import opened Trie
  import Values = TrieOptimize

  class TrieNode {
    var rule: nat
    var key: string
    var param: Option<ParamType>
    var children: seq<TrieNode>

    constructor ()
      ensures rule == 0 && key == "" && param == None && children == []
    {
      rule, key, param, children := 0, "", None, [];
    }

    /** `IsSimpleNode`. */
    predicate IsSimpleNode()
      reads this, children
    {
      rule == 0 && |children| < 2 && param == None && forall i :: 0 <= i < |children| ==> children[i].param == None
    }
  }

  /** The nodes of a tree, laid out as they are linked. */
  datatype Shape = Shape(node: TrieNode, below: seq<Shape>)

  ghost function Nodes(s: Shape): set<TrieNode> {
    {s.node} + NodesIn(s.below)
  }

  ghost function NodesIn(below: seq<Shape>): (ns: set<TrieNode>)
    ensures forall i :: 0 <= i < |below| ==> Nodes(below[i]) <= ns
  {
    set i, n | 0 <= i < |below| && n in Nodes(below[i]) :: n
  }

  /** No node occurs twice. */
  ghost predicate Tree(s: Shape) {
    s.node !in NodesIn(s.below) && Forest(s.below)
  }

  ghost predicate Forest(below: seq<Shape>) {
    && (forall i :: 0 <= i < |below| ==> Tree(below[i]))
    && forall i, j :: 0 <= i < j < |below| ==> Nodes(below[i]) !! Nodes(below[j])
  }

  /** The linked nodes hold the trie `t`. */
  ghost predicate Holds(s: Shape, t: Node)
    reads Nodes(s)
    decreases s
  {
    && s.node.rule == t.rule && s.node.key == t.key && s.node.param == t.param
    && |s.node.children| == |s.below| == |t.children|
    && (forall i :: 0 <= i < |s.below| ==> s.node.children[i] == s.below[i].node)
    && forall i :: 0 <= i < |s.below| ==> Holds(s.below[i], t.children[i])
  }

  ghost predicate AllHold(nodes: seq<TrieNode>, below: seq<Shape>, ts: seq<Node>)
    reads NodesIn(below)
  {
    && |nodes| == |below| == |ts|
    && (forall i :: 0 <= i < |below| ==> nodes[i] == below[i].node)
    && forall i :: 0 <= i < |below| ==> Holds(below[i], ts[i])
  }

  /** `optimizeNode`. */
  method OptimizeNode(node: TrieNode, ghost s: Shape, ghost t: Node) returns (ghost r: Shape)
    requires node == s.node && Tree(s) && Holds(s, t)
    modifies Nodes(s)
    ensures r.node == node && Tree(r) && Nodes(r) <= Nodes(s)
    ensures Holds(r, Values.OptimizeNode(t))
    decreases Values.Size(t), 0
  {
    hide Nodes, NodesIn, Tree;
    if |node.children| == 0 {
      return s;
    }
    TreeParts(s);
    if node.IsSimpleNode() {
      assert Values.IsSimpleNode(t);
      r := MergeChild(node, s, t);
    } else {
      assert !Values.IsSimpleNode(t);
      ghost var rs := OptimizeChildren(node.children, s.below, t.children);
      r := Shape(node, rs);
      TreeFrom(s, r);
    }
  }

  /** The branch for a simple node. */
  method MergeChild(node: TrieNode, ghost s: Shape, ghost t: Node) returns (ghost r: Shape)
    requires node == s.node && Tree(s) && Holds(s, t) && t.children != [] && Values.IsSimpleNode(t)
    modifies Nodes(s)
    ensures r.node == node && Tree(r) && Nodes(r) <= Nodes(s)
    ensures Holds(r, Values.OptimizeNode(t))
    decreases Values.Size(t) - 1, 1
  {
    hide Nodes, NodesIn, Tree, Values.Size;
    Values.MergeShrinks(t);
    TreeParts(s);
    MergedTree(s);
    ghost var merged := Shape(node, s.below[0].below);
    var child := node.children[0];
    node.key := node.key + child.key;
    node.rule := child.rule;
    node.children := child.children;
    TreeParts(merged);
    forall i | 0 <= i < |merged.below| ensures Holds(merged.below[i], t.children[0].children[i]) {
      assert Nodes(merged.below[i]) <= NodesIn(merged.below);
    }
    r := OptimizeNode(node, merged, Values.Merge(t));
  }

  lemma TreeParts(s: Shape)
    requires Tree(s)
    ensures s.node !in NodesIn(s.below) && Forest(s.below) && Nodes(s) == {s.node} + NodesIn(s.below)
  {
  }

  lemma TreeFrom(s: Shape, r: Shape)
    requires Tree(s) && r.node == s.node && Forest(r.below) && NodesIn(r.below) <= NodesIn(s.below)
    ensures Tree(r) && Nodes(r) <= Nodes(s)
  {
    hide NodesIn;
  }

  /** The loop over a node's children. */
  method OptimizeChildren(nodes: seq<TrieNode>, ghost below: seq<Shape>, ghost ts: seq<Node>) returns (ghost rs: seq<Shape>)
    requires Forest(below) && AllHold(nodes, below, ts)
    modifies NodesIn(below)
    ensures Forest(rs) && NodesIn(rs) <= NodesIn(below)
    ensures AllHold(nodes, rs, Values.OptimizeAll(ts))
    decreases Values.SizeIn(ts), 1
  {
    hide Holds, Nodes, NodesIn, Tree, Values.OptimizeNode, Values.OptimizeAll;
    rs := [];
    for i := 0 to |nodes|
      invariant |rs| == i
      invariant forall j :: 0 <= j < i ==> rs[j].node == nodes[j] && Tree(rs[j]) && Nodes(rs[j]) <= Nodes(below[j])
      invariant forall j :: 0 <= j < i ==> Holds(rs[j], Values.OptimizeNode(ts[j]))
      invariant forall j :: i <= j < |nodes| ==> Holds(below[j], ts[j])
    {
      Values.ChildIsSmaller(ts, i);
      label before:
      ghost var r := OptimizeNode(nodes[i], below[i], ts[i]);
      forall j | 0 <= j < i ensures Holds(rs[j], Values.OptimizeNode(ts[j])) {
        assert Nodes(below[j]) !! Nodes(below[i]);
        assert old@before(Holds(rs[j], Values.OptimizeNode(ts[j])));
        assert old@before(allocated(Nodes(rs[j]))) && unchanged@before(Nodes(rs[j]));
      }
      forall j | i < j < |nodes| ensures Holds(below[j], ts[j]) {
        assert Nodes(below[i]) !! Nodes(below[j]);
        assert old@before(Holds(below[j], ts[j]));
        assert old@before(allocated(Nodes(below[j]))) && unchanged@before(Nodes(below[j]));
      }
      rs := rs + [r];
    }
    forall j | 0 <= j < |nodes| ensures Values.OptimizeAll(ts)[j] == Values.OptimizeNode(ts[j]) {
      OptimizeAllAt(ts, j);
    }
    Replaced(below, rs);
  }

  /** Each shape replaced by one over nodes of its own. */
  lemma Replaced(below: seq<Shape>, rs: seq<Shape>)
    requires Forest(below) && |rs| == |below|
    requires forall j :: 0 <= j < |rs| ==> Tree(rs[j]) && Nodes(rs[j]) <= Nodes(below[j])
    ensures Forest(rs) && NodesIn(rs) <= NodesIn(below)
  {
    hide Nodes, Tree;
  }

  /** A node that takes over its only child stays a tree. */
  lemma MergedTree(s: Shape)
    requires Tree(s) && |s.below| == 1
    ensures
      var merged := Shape(s.node, s.below[0].below);
      Tree(merged) && Nodes(merged) <= Nodes(s) && s.below[0].node != s.node
  {
    hide NodesIn;
    var child := s.below[0];
    assert Tree(child) && Nodes(child) <= NodesIn(s.below);
    assert child.node in Nodes(child) && NodesIn(child.below) <= Nodes(child);
  }

  lemma {:induction false} OptimizeAllAt(ts: seq<Node>, i: nat)
    requires i < |ts|
    ensures Values.OptimizeAll(ts)[i] == Values.OptimizeNode(ts[i])
    decreases |ts|
  {
    if i < |ts| - 1 {
      OptimizeAllAt(ts[..|ts| - 1], i);
    }
  }
}
