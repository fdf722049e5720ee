/** Taking a node with two children out of a tree: its successor takes over its place. */
module RbUnlink {
  import opened RbNode
  import opened RbShape
  import opened RbTree
  import opened RbInsert

  // ---------------------------------------------------------------- the leftmost node of a subtree

  /** The subtree of the leftmost node. */
  ghost function MinTree(t: Tree): (u: Tree)
    requires t.Fork?
    ensures u.Fork? && u.left.Leaf?
  {
    if t.left.Leaf? then t else MinTree(t.left)
  }

  ghost function RemoveMin(t: Tree): Tree
    requires t.Fork?
  {
    if t.left.Leaf? then t.right else Fork(t.red, RemoveMin(t.left), t.node, t.right)
  }

  /** The position of the leftmost node, when t is at position base. */
  ghost function MinPath(t: Tree, base: Path): Path
    requires t.Fork?
    decreases t
  {
    if t.left.Leaf? then base else MinPath(t.left, LeftOf(base, t))
  }

  lemma {:induction false} PlugMin(t: Tree, base: Path)
    requires t.Fork?
    ensures Plug(MinPath(t, base), MinTree(t)) == Plug(base, t)
    ensures Plug(MinPath(t, base), MinTree(t).right) == Plug(base, RemoveMin(t))
    decreases t
  {
    if t.left.Fork? { PlugMin(t.left, LeftOf(base, t)); }
  }

  lemma {:induction false} MinFirst(t: Tree)
    requires t.Fork?
    ensures InOrder(t) == [MinTree(t).node] + InOrder(RemoveMin(t))
    decreases t
  {
    var s := MinTree(t).node;
    if t.left.Fork? {
      MinFirst(t.left);
      Regroup([], [s], InOrder(RemoveMin(t.left)), [t.node], InOrder(t.right));
      assert InOrder(t) == ([s] + InOrder(RemoveMin(t.left))) + [t.node] + InOrder(t.right);
    }
  }

  lemma {:induction false} MinNodes(t: Tree)
    requires t.Fork? && Distinct(t)
    ensures Distinct(RemoveMin(t)) && Nodes(t) == {MinTree(t).node} + Nodes(RemoveMin(t))
    ensures MinTree(t).node !in Nodes(RemoveMin(t)) && Nodes(MinTree(t).right) <= Nodes(RemoveMin(t))
    decreases t
  {
    if t.left.Fork? { MinNodes(t.left); }
  }

  // ---------------------------------------------------------------- memory without the leftmost node

  /** The links of the leftmost node's parent and right child, when the node is taken out. */
  ghost predicate MinUnlinked(m: Memory, m': Memory, q: Node, x: Tree, keep: set<Node>) {
    && q in m && q in m' && m'[q] == m[q].(left := Ptr(x))
    && (x.Fork? ==> x.node in m && x.node in m' && m'[x.node] == m[x.node].(parent := q))
    && forall n :: n in keep && n != q && n != Ptr(x) && n in m ==> n in m' && m'[n] == m[n]
  }

  lemma {:induction false} HoldsWithoutMin(m: Memory, m': Memory, t: Tree, parent: Node?)
    requires Holds(m, t, parent) && Distinct(t) && t.Fork? && t.left.Fork?
    requires var s := MinTree(t).node;
      s in m && m[s].parent != null
      && MinUnlinked(m, m', m[s].parent, MinTree(t).right, Nodes(RemoveMin(t)))
    ensures Holds(m', RemoveMin(t), parent)
    decreases t
  {
    hide MinUnlinked;
    var x, s := MinTree(t).right, MinTree(t).node;
    var q := m[s].parent;
    MinNodes(t);
    MinNodes(t.left);
    MinPlace(m, t, parent);
    UseMinUnlinked(m, m', q, x, Nodes(RemoveMin(t)));
    HoldsSame(m, m', t.right, t.node);
    if t.left.left.Leaf? {
      assert MinTree(t) == t.left && Holds(m, t.left, t.node) && Holds(m, x, s);
      Reparented(m, m', x, s, q);
    } else {
      UnlinkedFewer(m, m', q, x, Nodes(RemoveMin(t)), Nodes(RemoveMin(t.left)));
      HoldsWithoutMin(m, m', t.left, t.node);
    }
  }

  lemma UseMinUnlinked(m: Memory, m': Memory, q: Node, x: Tree, keep: set<Node>)
    requires MinUnlinked(m, m', q, x, keep)
    ensures q in m && q in m' && m'[q] == m[q].(left := Ptr(x))
    ensures x.Fork? ==> x.node in m && x.node in m' && m'[x.node] == m[x.node].(parent := q)
    ensures forall n :: n in keep && n != q && n != Ptr(x) && n in m ==> n in m' && m'[n] == m[n]
  {}

  lemma UnlinkedFewer(m: Memory, m': Memory, q: Node, x: Tree, keep: set<Node>, fewer: set<Node>)
    requires MinUnlinked(m, m', q, x, keep) && fewer <= keep
    ensures MinUnlinked(m, m', q, x, fewer)
  {}

  /** The leftmost node's links, and where its parent and right child are. */
  lemma {:induction false} MinPlace(m: Memory, t: Tree, parent: Node?)
    requires Holds(m, t, parent) && Distinct(t) && t.Fork?
    ensures var u := MinTree(t);
      && u.node in m
      && m[u.node] == Fields(null, Ptr(u.right), if t.left.Leaf? then parent else m[u.node].parent, u.red)
      && Holds(m, u, m[u.node].parent) && Nodes(u) <= Nodes(t) && Distinct(u)
    ensures t.left.Fork? ==>
      var u := MinTree(t);
      var q := m[u.node].parent;
      && q != null && q in Nodes(t) && q !in Nodes(u) && q in m && m[q].left == u.node
      && u.node in Nodes(t.left) && Nodes(u) <= Nodes(t.left)
      && (if t.left.left.Leaf? then q == t.node else q in Nodes(t.left))
    decreases t
  {
    if t.left.Fork? { MinPlace(m, t.left, t.node); }
  }

  // ---------------------------------------------------------------- the successor takes over

  /** The tree in which the leftmost node on the right has taken over the root's place and colour. */
  ghost function TakenOver(t: Tree): Tree
    requires t.Fork? && t.right.Fork?
  {
    Fork(t.red, t.left, MinTree(t.right).node, RemoveMin(t.right))
  }

  lemma TakenOverNodes(p: Path, t: Tree)
    requires t.Fork? && t.right.Fork? && AllDistinct(p, t)
    ensures AllDistinct(p, TakenOver(t)) && Nodes(TakenOver(t)) == Nodes(t) - {t.node}
  {
    MinNodes(t.right);
  }

  /** The nodes that rb_erase touches are different from each other. */
  ghost predicate Spliceable(m: Memory, gone: Node, s: Node, l: Node, r: Node, x: Node?, q: Node, op: Node?) {
    && gone in m && s in m && l in m && r in m && q in m && (x != null ==> x in m) && (op != null ==> op in m)
    && m[gone] == Fields(l, r, op, m[gone].red) && m[s].right == x && m[s].parent == q
    && Apart(gone, s, l, r, x, q, op)
  }

  ghost predicate Apart(gone: Node, s: Node, l: Node, r: Node, x: Node?, q: Node, op: Node?) {
    && gone != s && gone != l && gone != r && gone != x && gone != op
    && l != s && l != r && l != x && l != q && l != op
    && s != x && s != q && s != op && r != x && r != op && q != op && (x == null || (x != q && x != op))
    && (q == gone <==> r == s)
  }

  /** The successor's subtree lies in the right one, which lies apart from the left one. */
  lemma ApartBySets(gone: Node, s: Node, l: Node, r: Node, x: Node?, q: Node, op: Node?,
                    left: set<Node>, right: set<Node>, least: set<Node>)
    requires l in left && r in right && least <= right && left !! right && gone !in left + right
    requires op == null || op !in left + right + {gone}
    requires s in least && (x != null ==> x in least && x != s && x != r)
    requires if q == gone then r == s else q in right && q !in least && r != s
    ensures Apart(gone, s, l, r, x, q, op)
  {}

  /** The links after the successor s has taken over from gone, whose children are l and r. */
  ghost predicate Spliced(m: Memory, m': Memory, root: Node?, root': Node?,
                          gone: Node, s: Node, l: Node, r: Node, x: Node?, q: Node, op: Node?)
    requires Spliceable(m, gone, s, l, r, x, q, op)
  {
    && m'.Keys == m.Keys
    && m'[s] == Fields(l, if q == gone then x else r, op, m[gone].red)
    && m'[l] == m[l].(parent := s)
    && (q != gone ==>
          && m'[q] == (if q == r then m[q].(left := x, parent := s) else m[q].(left := x))
          && (q != r ==> m'[r] == m[r].(parent := s))
          && (x != null ==> m'[x] == m[x].(parent := q)))
    && (if op == null then root' == s
        else root' == root && m'[op] == Hung(m, op, m[op].left == gone, s)[op])
    && (forall n :: n in m && n != s && n != l && n != op && (q != gone ==> n != q && n != r && n != x)
          ==> m'[n] == m[n])
  }

  /** The pieces of a tree whose root has two children are laid out as rb_erase expects. */
  lemma SpliceFacts(m: Memory, root: Node?, p: Path, t: Tree)
    requires HoldsAt(m, root, p, t) && t.Fork? && t.left.Fork? && t.right.Fork?
    ensures var u := MinTree(t.right);
      u.node in m && m[u.node].parent != null
      && Spliceable(m, t.node, u.node, t.left.node, t.right.node, Ptr(u.right), m[u.node].parent, Par(p))
      && m[u.node].left == null && m[u.node].red == u.red && m[u.node].right == Ptr(u.right)
    ensures p.InLeft? ==> m[p.node].left == t.node
    ensures p.InRight? ==> m[p.node].left != t.node
    ensures p.Top? ==> root == t.node
  {
    hide HoldsPath, Apart;
    Descend(m, root, p, t);
    Owned(m, root, p, t);
    MinPlace(m, t.right, t.node);
    MinNodes(t.right);
    var u := MinTree(t.right);
    assert u.node in Nodes(u) && Nodes(u.right) <= Nodes(u);
    assert t.left.node in Nodes(t.left) && t.right.node in Nodes(t.right);
    assert u.right.Fork? ==> u.right.node in Nodes(u.right) && Holds(m, u.right, u.node);
    ApartBySets(t.node, u.node, t.left.node, t.right.node, Ptr(u.right), m[u.node].parent, Par(p),
      Nodes(t.left), Nodes(t.right), Nodes(u));
  }

  lemma SplicedHolds(m: Memory, m': Memory, root: Node?, root': Node?, p: Path, t: Tree)
    requires HoldsAt(m, root, p, t) && t.Fork? && t.left.Fork? && t.right.Fork?
    requires var u := MinTree(t.right);
      u.node in m && m[u.node].parent != null
      && Spliceable(m, t.node, u.node, t.left.node, t.right.node, Ptr(u.right), m[u.node].parent, Par(p))
      && Spliced(m, m', root, root', t.node, u.node, t.left.node, t.right.node, Ptr(u.right), m[u.node].parent, Par(p))
    ensures HoldsAt(m', root', p, TakenOver(t))
  {
    hide HoldsPath, Distinct, PathDistinct, Nodes, PathNodes;
    var u := MinTree(t.right);
    TakenOverNodes(p, t);
    SpliceFacts(m, root, p, t);
    Descend(m, root, p, t);
    Owned(m, root, p, t);
    Owned(m, root, LeftOf(p, t), t.left);
    Owned(m, root, RightOf(p, t), t.right);
    DistinctParts(p, t);
    MinInside(m, t.right, t.node);
    assert Rehung(m, m', root', root, p, u.node);
    Rehang(m, m', root, root', p, t.node, u.node);
    Reparented(m, m', t.left, t.node, u.node);
    SplicedRight(m, m', t.right, t.node, u.node);
  }

  lemma DistinctParts(p: Path, t: Tree)
    requires AllDistinct(p, t) && t.Fork?
    ensures Distinct(t.left) && Distinct(t.right) && PathDistinct(p)
  {}

  lemma MinInside(m: Memory, t: Tree, parent: Node?)
    requires Holds(m, t, parent) && Distinct(t) && t.Fork?
    ensures var u := MinTree(t);
      && u.node in Nodes(t) && u.node in m && (u.right.Fork? ==> u.right.node in Nodes(t))
      && (t.left.Fork? ==> m[u.node].parent in Nodes(t))
  {
    MinPlace(m, t, parent);
  }

  /** The right subtree after the successor was taken out of it. */
  lemma SplicedRight(m: Memory, m': Memory, t: Tree, gone: Node, s: Node)
    requires t.Fork? && Holds(m, t, gone) && Distinct(t) && s == MinTree(t).node && s in m && m[s].parent != null
    requires var u := MinTree(t);
      var q, x := m[s].parent, Ptr(u.right);
      && (forall n :: n in Nodes(t) && n in m && n != s && (q != gone ==> n != q && n != t.node && n != x)
            ==> n in m' && m'[n] == m[n])
      && (q == gone <==> t.node == s)
      && (q != gone ==>
            && q in m && q in m' && m'[q] == (if q == t.node then m[q].(left := x, parent := s) else m[q].(left := x))
            && t.node in m && t.node in m' && (q != t.node ==> m'[t.node] == m[t.node].(parent := s))
            && (x != null ==> x in m && x in m' && m'[x] == m[x].(parent := q)))
    ensures Holds(m', RemoveMin(t), s)
  {
    hide Nodes, Distinct;
    var u := MinTree(t);
    var q, x := m[s].parent, Ptr(u.right);
    MinNodes(t);
    if t.left.Leaf? {
      assert Holds(m, t.right, s);
      HoldsSame(m, m', t.right, s);
    } else {
      MinPlace(m, t, gone);
      MinNotTop(t);
      var m1 := WithParent(m[q := m[q].(left := x)], x, q);
      WithoutMin(m, m1, t, gone);
      SameLinks(m, m1, m', Nodes(t), s, t.node, q, x);
      TopMoved(m1, m', RemoveMin(t), Nodes(t), gone, s);
    }
  }

  lemma TopMoved(m1: Memory, m': Memory, t: Tree, nodes: set<Node>, gone: Node, s: Node)
    requires t.Fork? && Holds(m1, t, gone) && Distinct(t) && nodes == {s} + Nodes(t) && s !in Nodes(t)
    requires t.node in m' && m'[t.node] == m1[t.node].(parent := s)
    requires forall n :: n in nodes - {s, t.node} && n in m1 ==> n in m' && m'[n] == m1[n]
    ensures Holds(m', t, s)
  {
    hide Distinct;
    Reparented(m1, m', t, gone, s);
  }

  /** Besides the node at the top, all links are those after the successor was taken out. */
  lemma SameLinks(m: Memory, m1: Memory, m': Memory, nodes: set<Node>, s: Node, top: Node, q: Node, x: Node?)
    requires q in m && (x != null ==> x in m && x != q && x != top) && top in m && s != top
    requires m1 == WithParent(m[q := m[q].(left := x)], x, q)
    requires forall n :: n in nodes && n in m && n != s && n != q && n != top && n != x ==> n in m' && m'[n] == m[n]
    requires q in m' && m'[q] == (if q == top then m[q].(left := x, parent := s) else m[q].(left := x))
    requires top in m' && (q != top ==> m'[top] == m[top].(parent := s))
    requires x != null ==> x in m' && m'[x] == m[x].(parent := q)
    ensures top in m1 && m'[top] == m1[top].(parent := s)
    ensures forall n :: n in nodes - {s, top} && n in m1 ==> n in m' && m'[n] == m1[n]
  {}

  /** The same, before the subtree's own root got its new parent. */
  lemma WithoutMin(m: Memory, m1: Memory, t: Tree, gone: Node)
    requires t.Fork? && t.left.Fork? && Holds(m, t, gone) && Distinct(t)
    requires var u := MinTree(t);
      && u.node in m && m[u.node].parent != null && m[u.node].parent in m && (u.right.Fork? ==> u.right.node in m)
      && m1 == WithParent(m[m[u.node].parent := m[m[u.node].parent].(left := Ptr(u.right))], Ptr(u.right),
        m[u.node].parent)
    ensures Holds(m1, RemoveMin(t), gone)
  {
    hide Nodes, Distinct;
    MinPlace(m, t, gone);
    MinNodes(t);
    MinNotTop(t);
    HoldsWithoutMin(m, m1, t, gone);
  }

  lemma MinNotTop(t: Tree)
    requires t.Fork? && t.left.Fork? && Distinct(t)
    ensures MinTree(t).node != t.node && RemoveMin(t).Fork? && RemoveMin(t).node == t.node
    ensures t.node !in Nodes(MinTree(t)) && (MinTree(t).right.Fork? ==> MinTree(t).right.node != t.node)
    ensures MinTree(t).right.Fork? ==> MinTree(t).right.node in Nodes(MinTree(t))
  {
    MinWithin(t.left);
  }

  lemma {:induction false} MinWithin(t: Tree)
    requires t.Fork?
    ensures MinTree(t).node in Nodes(t) && Nodes(MinTree(t)) <= Nodes(t)
    decreases t
  {
    if t.left.Fork? { MinWithin(t.left); }
  }

  // ---------------------------------------------------------------- the assignments

  /** Forgetting a node that is not in the tree. */
  lemma Forgotten(m: Memory, root: Node?, p: Path, t: Tree, n: Node)
    requires HoldsAt(m, root, p, t) && n !in Nodes(t) && n !in PathNodes(p)
    ensures HoldsAt(m - {n}, root, p, t)
  {
    HoldsSame(m, m - {n}, t, Par(p));
    HoldsPathSame(m, m - {n}, root, p, Ptr(t));
  }

  /** c is all there is below the root of t. */
  ghost predicate OnlyChild(t: Tree, c: Tree)
    requires t.Fork?
  {
    (t.left.Leaf? && c == t.right) || (t.right.Leaf? && c == t.left)
  }

  /** Replaces a node that has at most one child by that child. */
  method Bypass(tree: Root, node: Node, child: Node?, ghost p: Path, ghost t: Tree, ghost c: Tree)
    requires tree.Is(Plug(p, t)) && t.Fork? && t.node == node && child == Ptr(c)
    requires OnlyChild(t, c)
    modifies tree, tree.repr`left, tree.repr`right, tree.repr`parent
    ensures tree.Is(Plug(p, c)) && tree.repr == old(tree.repr) - {node}
  {
    hide Root.Is, Root.Mem, Holds, HoldsPath, HoldsAt, Distinct, PathDistinct, Nodes, PathNodes;
    tree.Look(p, t);
    ghost var m, root0 := tree.Mem(), tree.root;
    BypassFacts(tree, p, t, c);
    var parent := tree.Parent(node);
    if child != null {
      tree.SetParent(child, parent);
    }
    tree.HangLeftFirst(parent, node, child);
    BypassHolds(m, tree.Mem(), root0, tree.root, p, t, c);
    ghost var m' := tree.Mem();
    tree.Drop(node);
    Forgotten(m', tree.root, p, c, node);
    tree.Whole(p, c);
  }

  /** The links around a node with at most one child. */
  lemma BypassFacts(tree: Root, p: Path, t: Tree, c: Tree)
    requires tree.Is(Plug(p, t)) && t.Fork? && OnlyChild(t, c)
    ensures tree.repr == Nodes(t) + PathNodes(p) && AllDistinct(p, t)
    ensures Nodes(t) == {t.node} + Nodes(c) && t.node !in Nodes(c) && t.node !in PathNodes(p)
    ensures c.Fork? ==> c.node in tree.repr && c.node != t.node && c.node != Par(p)
    ensures p.InLeft? ==> tree.Mem()[p.node].left == t.node
    ensures p.InRight? ==> tree.Mem()[p.node].left != t.node
  {
    hide Root.Is, Root.Mem, Holds, HoldsPath, HoldsAt, Nodes, PathNodes, Distinct, PathDistinct;
    tree.Look(p, t);
    IsParts(tree, p, t);
    Owned(tree.Mem(), tree.root, p, t);
    Descend(tree.Mem(), tree.root, p, t);
    OnlyChildApart(tree.Mem(), tree.root, p, t, c);
    OnlyChildNodes(t, c);
  }

  lemma OnlyChildApart(m: Memory, root: Node?, p: Path, t: Tree, c: Tree)
    requires HoldsAt(m, root, p, t) && t.Fork? && OnlyChild(t, c)
    ensures c.Fork? ==> c.node in m && c.node != t.node && c.node != Par(p)
    ensures t.node !in Nodes(c)
  {
    hide Holds, HoldsPath, HoldsAt, Distinct, PathDistinct;
    Descend(m, root, p, t);
    Owned(m, root, if t.left.Leaf? then RightOf(p, t) else LeftOf(p, t), c);
    if !p.Top? && c.Fork? { ParInside(p); }
  }

  lemma ParInside(p: Path)
    requires !p.Top?
    ensures p.node in PathNodes(p)
  {}

  lemma OnlyChildNodes(t: Tree, c: Tree)
    requires t.Fork? && OnlyChild(t, c)
    ensures Nodes(t) == {t.node} + Nodes(c)
  {}

  lemma IsParts(tree: Root, p: Path, t: Tree)
    requires tree.Is(Plug(p, t))
    ensures AllDistinct(p, t) && tree.repr == Nodes(t) + PathNodes(p)
  {
    hide Root.Mem, Nodes, PathNodes, Distinct, PathDistinct, Holds, HoldsPath;
    PlugDistinct(p, t);
  }

  lemma BypassHolds(m: Memory, m': Memory, root: Node?, root': Node?, p: Path, t: Tree, c: Tree)
    requires HoldsAt(m, root, p, t) && t.Fork? && OnlyChild(t, c)
    requires m'.Keys == m.Keys && Rehung(m, m', root', root, p, Ptr(c))
    requires c.Fork? ==> c.node in m && m'[c.node] == m[c.node].(parent := Par(p))
    requires forall n :: n in m && n != Ptr(c) && n != Par(p) ==> m'[n] == m[n]
    ensures HoldsAt(m', root', p, c)
  {
    hide HoldsPath, Distinct, PathDistinct, Nodes, PathNodes, Rehung;
    Descend(m, root, p, t);
    Owned(m, root, p, t);
    var below := if t.left.Leaf? then RightOf(p, t) else LeftOf(p, t);
    Owned(m, root, below, c);
    BelowNodes(p, t);
    DistinctParts(p, t);
    Rehang(m, m', root, root', p, t.node, Ptr(c));
    Reparented(m, m', c, t.node, Par(p));
  }

  /** The link changes when the successor is the right child, one after the other. */
  lemma SpliceNear(m: Memory, root: Node?, root': Node?, gone: Node, s: Node, l: Node, x: Node?, op: Node?)
    requires Spliceable(m, gone, s, l, s, x, gone, op)
    requires if op == null then root' == s else root' == root
    ensures var m1 := Hung(m, op, op != null && m[op].left == gone, s);
      var m2 := m1[s := m1[s].(parent := op)];
      var m3 := m2[s := m2[s].(red := m[gone].red)];
      var m4 := m3[s := m3[s].(left := l)];
      Spliced(m, m4[l := m4[l].(parent := s)], root, root', gone, s, l, s, x, gone, op)
  {}

  /** The link changes when the successor lies deeper, one after the other. */
  lemma SpliceFar(m: Memory, root: Node?, root': Node?, gone: Node, s: Node, l: Node, r: Node, x: Node?, q: Node,
      op: Node?)
    requires Spliceable(m, gone, s, l, r, x, q, op) && q != gone
    requires if op == null then root' == s else root' == root
    ensures var m0 := WithParent(Hung(m, op, op != null && m[op].left == gone, s), x, q);
      var ma := m0[q := m0[q].(left := x)];
      var mb := ma[s := ma[s].(right := r)];
      var m1 := mb[r := mb[r].(parent := s)];
      var m2 := m1[s := m1[s].(parent := op)];
      var m3 := m2[s := m2[s].(red := m[gone].red)];
      var m4 := m3[s := m3[s].(left := l)];
      Spliced(m, m4[l := m4[l].(parent := s)], root, root', gone, s, l, r, x, q, op)
  {}

  /** Hands the place of a node with two children to its successor s. */
  method Splice(tree: Root, gone: Node, s: Node) returns (child: Node?, parent: Node, red: bool)
    requires gone in tree.repr && s in tree.repr
    requires var m := tree.Mem();
      m[gone].left != null && m[gone].right != null && m[s].parent != null
      && Spliceable(m, gone, s, m[gone].left, m[gone].right, m[s].right, m[s].parent, m[gone].parent)
    modifies tree`root, tree.repr`left, tree.repr`right, tree.repr`parent, tree.repr`red
    ensures var m := old(tree.Mem());
      && Spliced(m, tree.Mem(), old(tree.root), tree.root, gone, s, m[gone].left, m[gone].right,
                 m[s].right, m[s].parent, m[gone].parent)
      && child == m[s].right && parent == (if m[s].parent == gone then s else m[s].parent) && red == m[s].red
  {
    hide Root.Mem, Spliced;
    ghost var m, root0 := tree.Mem(), tree.root;
    ghost var l, r, x, q, op := m[gone].left, m[gone].right, m[s].right, m[s].parent, m[gone].parent;
    tree.HangLeftFirst(tree.Parent(gone), gone, s);
    child := tree.Right(s);
    parent := tree.Parent(s);
    red := tree.IsRed(s);
    if parent == gone {
      parent := s;
      SpliceNear(m, root0, tree.root, gone, s, l, x, op);
    } else {
      SpliceFar(m, root0, tree.root, gone, s, l, r, x, q, op);
      MoveChild(tree, gone, s, child, parent);
    }
    CopyLinks(tree, gone, s);
  }

  /** The successor's child takes its place, the successor gets the right subtree. */
  method MoveChild(tree: Root, gone: Node, s: Node, child: Node?, parent: Node)
    requires gone in tree.repr && s in tree.repr && parent in tree.repr && (child != null ==> child in tree.repr)
    requires tree.Mem()[gone].right != null && tree.Mem()[gone].right in tree.repr
    requires gone != s && gone != parent && gone != child
    modifies tree.repr`left, tree.repr`right, tree.repr`parent
    ensures var m0 := WithParent(old(tree.Mem()), child, parent);
      var ma := m0[parent := m0[parent].(left := child)];
      var mb := ma[s := ma[s].(right := m0[gone].right)];
      tree.Mem() == mb[m0[gone].right := mb[m0[gone].right].(parent := s)]
  {
    hide Root.Mem;
    if child != null {
      tree.SetParent(child, parent);
    }
    tree.SetLeft(parent, child);
    tree.SetRight(s, tree.Right(gone));
    tree.SetParent(tree.Right(gone), s);
  }

  /** The successor takes over parent, colour and left subtree. */
  method CopyLinks(tree: Root, gone: Node, s: Node)
    requires gone in tree.repr && s in tree.repr && gone != s
    requires tree.Mem()[gone].left != null && tree.Mem()[gone].left in tree.repr
    modifies tree.repr`left, tree.repr`parent, tree.repr`red
    ensures var m1, g := old(tree.Mem()), old(tree.Mem())[gone];
      var m2 := m1[s := m1[s].(parent := g.parent)];
      var m3 := m2[s := m2[s].(red := g.red)];
      var m4 := m3[s := m3[s].(left := g.left)];
      tree.Mem() == m4[g.left := m4[g.left].(parent := s)]
  {
    hide Root.Mem;
    tree.SetParent(s, tree.Parent(gone));
    tree.SetRed(s, tree.IsRed(gone));
    tree.SetLeft(s, tree.Left(gone));
    tree.SetParent(tree.Left(gone), s);
  }

  /** The in-order successor of a node with two children. */
  method Successor(tree: Root, gone: Node, ghost p: Path, ghost t: Tree) returns (s: Node)
    requires tree.Is(Plug(p, t)) && t.Fork? && t.node == gone && t.right.Fork?
    ensures s == MinTree(t.right).node && s in tree.repr
  {
    hide Root.Is, Root.Mem;
    tree.Look(p, t);
    ghost var w, u := RightOf(p, t), t.right;
    s := tree.Right(gone);
    tree.Look(w, u);
    while tree.Left(s) != null
      invariant Plug(w, u) == Plug(p, t) && u.Fork? && u.node == s && s in tree.repr
      invariant tree.Mem()[s].left == Ptr(u.left)
      invariant MinTree(u) == MinTree(t.right)
      decreases u
    {
      s := tree.Left(s);
      w, u := LeftOf(w, u), u.left;
      tree.Look(w, u);
    }
  }

  /** The successor's parent, before and after it takes over. */
  lemma MinParent(tree: Root, p: Path, t: Tree)
    requires tree.Is(Plug(p, t)) && t.Fork? && t.right.Fork?
    ensures var s := MinTree(t.right).node;
      var q := Par(MinPath(t.right, RightOf(p, TakenOver(t))));
      && s in tree.repr && q != null
      && q == if tree.Mem()[s].parent == t.node then s else tree.Mem()[s].parent
  {
    hide Root.Is, Root.Mem;
    var w, u := MinPath(t.right, RightOf(p, t)), MinTree(t.right);
    PlugMin(t.right, RightOf(p, t));
    tree.Look(w, u);
    MinPathPar(t.right, RightOf(p, t), RightOf(p, TakenOver(t)));
    tree.Look(p, t);
    MinPathNode(tree, t.right, RightOf(p, t));
  }

  lemma {:induction false} MinPathPar(t: Tree, base: Path, base': Path)
    requires t.Fork?
    ensures t.left.Leaf? ==> MinPath(t, base) == base && MinPath(t, base') == base'
    ensures t.left.Fork? ==> Par(MinPath(t, base)) == Par(MinPath(t, base')) && Par(MinPath(t, base)) != null
    decreases t
  {
    if t.left.Fork? { MinPathPar(t.left, LeftOf(base, t), LeftOf(base', t)); }
  }

  /** The leftmost node's parent lies inside the subtree, unless it is the subtree's root. */
  lemma {:induction false} MinPathNode(tree: Root, t: Tree, base: Path)
    requires tree.Is(Plug(base, t)) && t.Fork? && !base.Top?
    ensures t.left.Fork? ==> Par(MinPath(t, base)) != base.node && Par(MinPath(t, base)) in Nodes(t)
    decreases t
  {
    hide Root.Is, Root.Mem;
    PlugDistinctOf(tree, base, t);
    if t.left.Fork? { MinPathNode(tree, t.left, LeftOf(base, t)); }
  }

  lemma PlugDistinctOf(tree: Root, p: Path, t: Tree)
    requires tree.Is(Plug(p, t))
    ensures AllDistinct(p, t) && (t.Fork? ==> t.node in Nodes(t)) && (!p.Top? ==> p.node in PathNodes(p))
  {
    PlugDistinct(p, t);
  }

  /** Takes a node with two children out of the tree. */
  method TakeOut(tree: Root, gone: Node, ghost p: Path, ghost t: Tree) returns (child: Node?, parent: Node, red: bool)
    requires tree.Is(Plug(p, t)) && t.Fork? && t.node == gone && t.left.Fork? && t.right.Fork?
    modifies tree, tree.repr`left, tree.repr`right, tree.repr`parent, tree.repr`red
    ensures tree.Is(Plug(p, TakenOver(t))) && tree.repr == old(tree.repr) - {gone}
    ensures var u := MinTree(t.right);
      child == Ptr(u.right) && red == u.red && parent == Par(MinPath(t.right, RightOf(p, TakenOver(t))))
  {
    hide Root.Is, Root.Mem, Holds, HoldsPath, HoldsAt, Distinct, PathDistinct, Nodes, PathNodes, Spliced, Spliceable;
    var s := Successor(tree, gone, p, t);
    tree.Look(p, t);
    ghost var m, root0 := tree.Mem(), tree.root;
    SpliceFacts(m, root0, p, t);
    IsParts(tree, p, t);
    MinParent(tree, p, t);
    child, parent, red := Splice(tree, gone, s);
    SplicedHolds(m, tree.Mem(), root0, tree.root, p, t);
    TakenOverFacts(tree.repr, p, t);
    ghost var m' := tree.Mem();
    tree.Drop(gone);
    Forgotten(m', tree.root, p, TakenOver(t), gone);
    tree.Whole(p, TakenOver(t));
  }

  lemma TakenOverFacts(repr: set<Node>, p: Path, t: Tree)
    requires t.Fork? && t.left.Fork? && t.right.Fork? && AllDistinct(p, t) && repr == Nodes(t) + PathNodes(p)
    ensures t.node !in Nodes(TakenOver(t)) && t.node !in PathNodes(p)
    ensures repr - {t.node} == Nodes(TakenOver(t)) + PathNodes(p)
  {
    TakenOverNodes(p, t);
  }
}
