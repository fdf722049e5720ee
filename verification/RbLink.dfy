/** Hanging a new node into the tree where a search ended, before the colour fix-up. */
module RbLink {
  import opened RbNode
  import opened RbShape
  import opened RbTree

  ghost function RedLeaf(node: Node): Tree {
    Fork(true, Leaf, node, Leaf)
  }

  /** Memory after the new node was filled in and the link to it set. */
  lemma LinkedIn(m: Memory, m1: Memory, m': Memory, root: Node?, root': Node?, p: Path, node: Node)
    requires HoldsAt(m, root, p, Leaf) && node !in m && m1 == m[node := Fields(null, null, Par(p), true)]
    requires if p.Top? then root' == node && m' == m1
      else root' == root && p.node in m1 && m' == Hung(m1, p.node, p.InLeft?, node)
    requires m.Keys == PathNodes(p)
    ensures HoldsAt(m', root', p, RedLeaf(node))
  {
    hide PathDistinct, HoldsPath;
    Owned(m, root, p, Leaf);
    Rehang(m, m', root, root', p, null, node);
    LeafNodes(node);
    assert Distinct(RedLeaf(node));
    assert Holds(m', RedLeaf(node), Par(p));
  }

  /** rb_link_node; the link is the root, or the left or right link of the parent. */
  method LinkNode(tree: Root, node: Node, parent: Node?, toLeft: bool, ghost p: Path)
    requires tree.Is(Plug(p, Leaf)) && node !in tree.repr && parent == Par(p)
    requires parent != null ==> toLeft == p.InLeft?
    modifies tree, tree.repr`left, tree.repr`right, node`left, node`right, node`parent, node`red
    ensures tree.Is(Plug(p, RedLeaf(node))) && tree.repr == old(tree.repr) + {node}
  {
    hide Root.Mem, HoldsPath, HoldsAt, Nodes, PathNodes, Plug, Distinct, PathDistinct;
    tree.Look(p, Leaf);
    PlugDistinct(p, Leaf);
    ghost var m, root := tree.Mem(), tree.root;
    node.parent, node.red := parent, true;
    node.left, node.right := null, null;
    assert tree.Mem() == m;
    tree.Enter(node);
    ghost var m1 := tree.Mem();
    if parent == null {
      tree.SetRoot(node);
    } else if toLeft {
      tree.SetLeft(parent, node);
    } else {
      tree.SetRight(parent, node);
    }
    NoNodes();
    LinkedIn(m, m1, tree.Mem(), root, tree.root, p, node);
    LeafNodes(node);
    tree.Whole(p, RedLeaf(node));
  }

  lemma NoNodes()
    ensures Nodes(Leaf) == {}
  {}

  lemma LeafNodes(node: Node)
    ensures Nodes(RedLeaf(node)) == {node}
  {}
}
