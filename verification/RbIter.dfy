/** Walking a red-black tree in order, by child and parent pointers. */
module RbIter {
  import opened RbNode
  import opened RbShape
  import opened RbTree
  import opened RbInsert

  ghost function FirstOf(s: seq<Node>): Node? {
    if s == [] then null else s[0]
  }

  ghost function LastOf(s: seq<Node>): Node? {
    if s == [] then null else s[|s| - 1]
  }

  lemma {:induction false} LeftmostFirst(t: Tree)
    requires t.Fork?
    ensures InOrder(t) != []
    ensures FirstOf(InOrder(t)) == if t.left.Leaf? then t.node else FirstOf(InOrder(t.left))
    ensures LastOf(InOrder(t)) == if t.right.Leaf? then t.node else LastOf(InOrder(t.right))
  {
    if t.left.Fork? { assert InOrder(t.left) != []; }
    if t.right.Fork? { assert InOrder(t.right) != []; }
  }

  /** The leftmost node below n. */
  method GoLeft(tree: Root, n0: Node, ghost w0: Path, ghost u0: Tree) returns (n: Node)
    requires tree.Is(Plug(w0, u0)) && u0.Fork? && u0.node == n0
    ensures n == FirstOf(InOrder(u0))
  {
    hide Root.Is, Root.Mem, InOrder;
    n := n0;
    ghost var w, u := w0, u0;
    tree.Look(w, u);
    LeftmostFirst(u);
    while tree.Left(n) != null
      invariant Plug(w, u) == Plug(w0, u0) && u.Fork? && u.node == n && n in tree.repr
      invariant tree.Mem()[n].left == Ptr(u.left)
      invariant FirstOf(InOrder(u)) == FirstOf(InOrder(u0))
      invariant u.left.Leaf? ==> FirstOf(InOrder(u)) == n
      decreases u
    {
      n := tree.Left(n);
      LeftmostFirst(u);
      w, u := LeftOf(w, u), u.left;
      tree.Look(w, u);
      LeftmostFirst(u);
    }
  }

  /** The rightmost node below n. */
  method GoRight(tree: Root, n0: Node, ghost w0: Path, ghost u0: Tree) returns (n: Node)
    requires tree.Is(Plug(w0, u0)) && u0.Fork? && u0.node == n0
    ensures n == LastOf(InOrder(u0))
  {
    hide Root.Is, Root.Mem, InOrder;
    n := n0;
    ghost var w, u := w0, u0;
    tree.Look(w, u);
    LeftmostFirst(u);
    while tree.Right(n) != null
      invariant Plug(w, u) == Plug(w0, u0) && u.Fork? && u.node == n && n in tree.repr
      invariant tree.Mem()[n].right == Ptr(u.right)
      invariant LastOf(InOrder(u)) == LastOf(InOrder(u0))
      invariant u.right.Leaf? ==> LastOf(InOrder(u)) == n
      decreases u
    {
      n := tree.Right(n);
      LeftmostFirst(u);
      w, u := RightOf(w, u), u.right;
      tree.Look(w, u);
      LeftmostFirst(u);
    }
  }

  /** The first node in order. */
  method First(tree: Root, ghost whole: Tree) returns (n: Node?)
    requires tree.Is(whole)
    ensures n == FirstOf(InOrder(whole))
  {
    TopLooks(tree, whole);
    n := tree.root;
    if n == null {
      return null;
    }
    n := GoLeft(tree, n, Top, whole);
  }

  /** The last node in order. */
  method Last(tree: Root, ghost whole: Tree) returns (n: Node?)
    requires tree.Is(whole)
    ensures n == LastOf(InOrder(whole))
  {
    TopLooks(tree, whole);
    n := tree.root;
    if n == null {
      return null;
    }
    n := GoRight(tree, n, Top, whole);
  }

  lemma TopLooks(tree: Root, whole: Tree)
    requires tree.Is(whole)
    ensures tree.root == Ptr(whole) && Plug(Top, whole) == whole
  {}

  /** The node that follows the one at a position. */
  method NextAt(tree: Root, node: Node, ghost p: Path, ghost t: Tree) returns (n: Node?)
    requires tree.Is(Plug(p, t)) && t.Fork? && t.node == node
    ensures n == FirstOf(InOrder(t.right) + After(p))
  {
    hide Root.Is, Root.Mem;
    tree.Look(p, t);
    if tree.Parent(node) == node {
      // an unlinked node is its own parent; this one is linked
      NotOwnParent(tree, p, t);
      assert false;
    }
    if tree.Right(node) != null {
      LeftmostFirst(t.right);
      n := GoLeft(tree, tree.Right(node), RightOf(p, t), t.right);
      return;
    }
    var cur := node;
    ghost var w, u := p, t;
    var parent := tree.Parent(cur);
    while parent != null && cur == tree.Right(parent)
      invariant Plug(w, u) == Plug(p, t) && u.Fork? && u.node == cur && cur in tree.repr
      invariant parent == Par(w) && (parent != null ==> parent in tree.repr)
      invariant w.InLeft? ==> tree.Mem()[w.node].right != cur
      invariant w.InRight? ==> tree.Mem()[w.node].right == cur
      invariant After(w) == After(p)
      decreases w
    {
      cur := parent;
      w, u := w.up, ParentTree(w, u);
      tree.Look(w, u);
      parent := tree.Parent(cur);
    }
    n := parent;
  }

  /** The node that precedes the one at a position. */
  method PrevAt(tree: Root, node: Node, ghost p: Path, ghost t: Tree) returns (n: Node?)
    requires tree.Is(Plug(p, t)) && t.Fork? && t.node == node
    ensures n == LastOf(Before(p) + InOrder(t.left))
  {
    hide Root.Is, Root.Mem;
    tree.Look(p, t);
    if tree.Parent(node) == node {
      NotOwnParent(tree, p, t);
      assert false;
    }
    if tree.Left(node) != null {
      LeftmostFirst(t.left);
      n := GoRight(tree, tree.Left(node), LeftOf(p, t), t.left);
      return;
    }
    var cur := node;
    ghost var w, u := p, t;
    var parent := tree.Parent(cur);
    while parent != null && cur == tree.Left(parent)
      invariant Plug(w, u) == Plug(p, t) && u.Fork? && u.node == cur && cur in tree.repr
      invariant parent == Par(w) && (parent != null ==> parent in tree.repr)
      invariant w.InRight? ==> tree.Mem()[w.node].left != cur
      invariant w.InLeft? ==> tree.Mem()[w.node].left == cur
      invariant Before(w) == Before(p)
      decreases w
    {
      cur := parent;
      w, u := w.up, ParentTree(w, u);
      tree.Look(w, u);
      parent := tree.Parent(cur);
    }
    n := parent;
  }

  lemma NotOwnParent(tree: Root, p: Path, t: Tree)
    requires tree.Is(Plug(p, t)) && t.Fork?
    ensures t.node != Par(p)
  {
    PlugDistinct(p, t);
  }

  // ---------------------------------------------------------------- by index

  /** Every node in order is at some position of the tree. */
  lemma {:induction false} Locate(whole: Tree, p: Path, t: Tree, i: nat) returns (w: Path, u: Tree)
    requires Plug(p, t) == whole && i < |InOrder(t)|
    ensures Plug(w, u) == whole && u.Fork? && u.node == InOrder(t)[i]
    ensures |Before(w) + InOrder(u.left)| == |Before(p)| + i
    decreases t
  {
    var k := |InOrder(t.left)|;
    if i < k {
      w, u := Locate(whole, LeftOf(p, t), t.left, i);
    } else if i == k {
      w, u := p, t;
    } else {
      w, u := Locate(whole, RightOf(p, t), t.right, i - k - 1);
    }
  }

  /** A position splits the order at the node's index. */
  lemma Split(p: Path, t: Tree, i: nat)
    requires t.Fork? && i == |Before(p) + InOrder(t.left)|
    ensures var s := InOrder(Plug(p, t));
      i < |s| && s[i] == t.node && s[..i] == Before(p) + InOrder(t.left) && s[i + 1..] == InOrder(t.right) + After(p)
  {
    hide InOrder, Before, After;
    InOrderPlug(p, t);
    var a, b := Before(p) + InOrder(t.left), InOrder(t.right) + After(p);
    Regroup(Before(p), InOrder(t.left), [t.node], InOrder(t.right), After(p));
    OrderOf(t);
    SplitAt(InOrder(Plug(p, t)), a, t.node, b);
  }

  lemma OrderOf(t: Tree)
    requires t.Fork?
    ensures InOrder(t) == InOrder(t.left) + [t.node] + InOrder(t.right)
  {}

  lemma SplitAt(s: seq<Node>, a: seq<Node>, n: Node, b: seq<Node>)
    requires s == a + ([n] + b) || s == a + [n] + b
    ensures |a| < |s| && s[|a|] == n && s[..|a|] == a && s[|a| + 1..] == b
  {}

  /** rb_next goes from each node in order to the one behind it. */
  method Next(tree: Root, node: Node, ghost whole: Tree, ghost i: nat) returns (n: Node?)
    requires tree.Is(whole) && i < |InOrder(whole)| && InOrder(whole)[i] == node
    ensures n == if i + 1 < |InOrder(whole)| then InOrder(whole)[i + 1] else null
  {
    hide Root.Is, InOrder;
    ghost var p, t := Locate(whole, Top, whole, i);
    Split(p, t, i);
    n := NextAt(tree, node, p, t);
    FirstBehind(InOrder(whole), i);
  }

  /** rb_prev goes back. */
  method Prev(tree: Root, node: Node, ghost whole: Tree, ghost i: nat) returns (n: Node?)
    requires tree.Is(whole) && i < |InOrder(whole)| && InOrder(whole)[i] == node
    ensures n == if i > 0 then InOrder(whole)[i - 1] else null
  {
    hide Root.Is, InOrder;
    ghost var p, t := Locate(whole, Top, whole, i);
    Split(p, t, i);
    n := PrevAt(tree, node, p, t);
    FirstBehind(InOrder(whole), i);
  }

  lemma FirstBehind(s: seq<Node>, i: nat)
    requires i < |s|
    ensures FirstOf(s[i + 1..]) == if i + 1 < |s| then s[i + 1] else null
    ensures LastOf(s[..i]) == if i > 0 then s[i - 1] else null
  {}

  ghost predicate NoTwice(s: seq<Node>) {
    forall i, j :: 0 <= i < j < |s| ==> s[i] != s[j]
  }

  lemma NoTwiceJoin(a: seq<Node>, n: Node, b: seq<Node>)
    requires NoTwice(a) && NoTwice(b) && n !in a && n !in b
    requires forall x :: x in a ==> x !in b
    ensures NoTwice(a + [n] + b)
  {
    var s, k := a + [n] + b, |a|;
    forall i, j | 0 <= i < j < |s| ensures s[i] != s[j] {
      assert s[i] == if i < k then a[i] else if i == k then n else b[i - k - 1];
      assert s[j] == if j < k then a[j] else if j == k then n else b[j - k - 1];
      if i < k {
        assert a[i] in a;
        if j > k {
          assert b[j - k - 1] in b;
        }
      } else {
        assert b[j - k - 1] in b;
      }
    }
  }

  lemma {:induction false} OrderNodes(t: Tree, n: Node)
    ensures n in InOrder(t) <==> n in Nodes(t)
  {
    if t.Fork? {
      OrderNodes(t.left, n);
      OrderNodes(t.right, n);
    }
  }

  /** No node is met twice in order. */
  lemma {:induction false} OrderDistinct(t: Tree)
    requires Distinct(t)
    ensures NoTwice(InOrder(t))
  {
    hide Distinct, NoTwice;
    if t.Fork? {
      DistinctBelow(t);
      OrderDistinct(t.left);
      OrderDistinct(t.right);
      OrderNodes(t.left, t.node);
      OrderNodes(t.right, t.node);
      forall n | n in InOrder(t.left) ensures n !in InOrder(t.right) {
        OrderNodes(t.left, n);
        OrderNodes(t.right, n);
      }
      NoTwiceJoin(InOrder(t.left), t.node, InOrder(t.right));
    } else {
      NoneTwice();
    }
  }

  lemma NoneTwice()
    ensures NoTwice([])
  {}

  lemma DistinctBelow(t: Tree)
    requires Distinct(t) && t.Fork?
    ensures Distinct(t.left) && Distinct(t.right) && Nodes(t.left) !! Nodes(t.right)
    ensures t.node !in Nodes(t.left) && t.node !in Nodes(t.right)
  {}
}
