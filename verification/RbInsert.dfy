/** Linking a new node into the red-black tree, and the colour fix-up that follows. */
module RbInsert {
  import opened RbNode
  import opened RbShape
  import opened RbTree

  /** The one place where the colour rules may be broken: t is red, and its parent may be, too. */
  ghost predicate Hot(p: Path, t: Tree, h: nat) {
    && t.Fork? && t.red && Fits(p, h)
    && !Red(t.left) && !Red(t.right) && Balanced(t.left, h) && Balanced(t.right, h)
  }

  /** Under a red parent there is a black grandparent. */
  lemma HotGrandparent(p: Path, t: Tree, h: nat)
    requires Hot(p, t, h) && RedPar(p)
    ensures !p.Top? && !p.up.Top? && !p.up.red
    ensures p.up.InLeft? ==> Balanced(p.up.right, h) && Fits(p.up.up, h + 1)
    ensures p.up.InRight? ==> Balanced(p.up.left, h) && Fits(p.up.up, h + 1)
    ensures p.InLeft? ==> Balanced(p.right, h) && !Red(p.right)
    ensures p.InRight? ==> Balanced(p.left, h) && !Red(p.left)
  {
    assert Fits(p.up, h);
  }

  /** The subtree of the parent. */
  ghost function ParentTree(p: Path, t: Tree): (u: Tree)
    requires !p.Top?
    ensures u.Fork? && u.node == p.node && u.red == p.red && Plug(p, t) == Plug(p.up, u)
  {
    if p.InLeft? then Fork(p.red, t, p.node, p.right) else Fork(p.red, p.left, p.node, t)
  }

  /** Where an iteration of the fix-up loop leads: the same order, a broken place higher up or none. */
  ghost predicate Progress(p: Path, t: Tree, p': Path, t': Tree, h': nat) {
    && Hot(p', t', h') && InOrder(Plug(p', t')) == InOrder(Plug(p, t))
    && Depth(p') < Depth(p)
  }

  // ---------------------------------------------------------------- the shapes of one iteration

  /** Grandparent tree after the uncle case. */
  lemma UncleShape(p: Path, t: Tree, h: nat, uncle: Tree)
    requires Hot(p, t, h) && RedPar(p) && Red(uncle) && !p.up.Top?
    requires p.up.InLeft? ==> uncle == p.up.right
    requires p.up.InRight? ==> uncle == p.up.left
    ensures var P, U := Painted(ParentTree(p, t), false), Painted(uncle, false);
      var G := if p.up.InLeft? then Fork(true, P, p.up.node, U) else Fork(true, U, p.up.node, P);
      Progress(p, t, p.up.up, G, h + 1)
  {
    HotGrandparent(p, t, h);
    var P, U := Painted(ParentTree(p, t), false), Painted(uncle, false);
    var G := if p.up.InLeft? then Fork(true, P, p.up.node, U) else Fork(true, U, p.up.node, P);
    var G0 := ParentTree(p.up, ParentTree(p, t));
    assert InOrder(P) == InOrder(ParentTree(p, t)) && InOrder(U) == InOrder(uncle);
    assert InOrder(G) == InOrder(G0);
    Replaced(p.up.up, G0, G);
  }

  /** The tree after the rotations, the old node's subtree as the new broken place that is none. */
  lemma LeftLeftShape(p: Path, t: Tree, h: nat)
    requires Hot(p, t, h) && RedPar(p) && p.InLeft? && p.up.InLeft? && !Red(p.up.right)
    ensures var g := Fork(true, p.right, p.up.node, p.up.right);
      Progress(p, t, InLeft(false, p.node, g, p.up.up), t, h)
  {
    HotGrandparent(p, t, h);
    var G0 := ParentTree(p.up, Painted(ParentTree(p, t), false));
    RightRotationKeepsOrder(Painted(G0, true));
    Replaced(p.up.up, ParentTree(p.up, ParentTree(p, t)), RightRotated(Painted(G0, true)));
  }

  lemma RightRightShape(p: Path, t: Tree, h: nat)
    requires Hot(p, t, h) && RedPar(p) && p.InRight? && p.up.InRight? && !Red(p.up.left)
    ensures var g := Fork(true, p.up.left, p.up.node, p.left);
      Progress(p, t, InRight(false, g, p.node, p.up.up), t, h)
  {
    HotGrandparent(p, t, h);
    var G0 := ParentTree(p.up, Painted(ParentTree(p, t), false));
    LeftRotationKeepsOrder(Painted(G0, true));
    Replaced(p.up.up, ParentTree(p.up, ParentTree(p, t)), LeftRotated(Painted(G0, true)));
  }

  /** A rotation at the parent brings an inner grandchild to the outside. */
  lemma InnerShape(p: Path, t: Tree, h: nat)
    requires Hot(p, t, h) && RedPar(p)
    requires (p.InRight? && p.up.InLeft?) || (p.InLeft? && p.up.InRight?)
    ensures p.InRight? ==>
      var p', t' := InLeft(true, t.node, t.right, p.up), Fork(true, p.left, p.node, t.left);
      Plug(p', t') == Plug(p.up, LeftRotated(ParentTree(p, t)))
      && Hot(p', t', h) && RedPar(p') && InOrder(Plug(p', t')) == InOrder(Plug(p, t))
    ensures p.InLeft? ==>
      var p', t' := InRight(true, t.left, t.node, p.up), Fork(true, t.right, p.node, p.right);
      Plug(p', t') == Plug(p.up, RightRotated(ParentTree(p, t)))
      && Hot(p', t', h) && RedPar(p') && InOrder(Plug(p', t')) == InOrder(Plug(p, t))
  {
    HotGrandparent(p, t, h);
    var P := ParentTree(p, t);
    if p.InRight? {
      LeftRotationKeepsOrder(P);
      Replaced(p.up, P, LeftRotated(P));
    } else {
      RightRotationKeepsOrder(P);
      Replaced(p.up, P, RightRotated(P));
    }
  }

  /** Progress of the second stage of an iteration is progress of the iteration. */
  lemma ProgressAfter(p: Path, t: Tree, p1: Path, t1: Tree, p': Path, h: nat)
    requires Progress(p1, t1, p', t1, h) && Depth(p1) == Depth(p)
    requires InOrder(Plug(p1, t1)) == InOrder(Plug(p, t))
    ensures Progress(p, t, p', t1, h)
  {}

  // ---------------------------------------------------------------- the fix-up

  /** A red uncle below a left parent's grandparent: only colours change. */
  method RecolourLeft(tree: Root, parent: Node, gparent: Node, uncle: Node, ghost p: Path, ghost t: Tree, ghost h: nat)
    returns (ghost p': Path, ghost t': Tree, ghost h': nat)
    requires tree.Is(Plug(p, t)) && Hot(p, t, h) && RedPar(p)
    requires !p.Top? && p.node == parent && p.up.InLeft? && p.up.node == gparent
    requires Red(p.up.right) && Ptr(p.up.right) == uncle
    modifies tree.repr`red
    ensures tree.Is(Plug(p', t')) && Progress(p, t, p', t', h') && t'.Fork? && t'.node == gparent
  {
    hide Root.Is, Root.Mem, InOrder, Hot, Fits, Progress, Balanced;
    HotGrandparent(p, t, h);
    ghost var top, P, u := p.up.up, ParentTree(p, t), p.up.right;
    UncleShape(p, t, h, u);
    tree.Paint(uncle, false, InRight(false, P, gparent, top), u);
    ghost var u' := Painted(u, false);
    tree.Paint(parent, false, InLeft(false, gparent, u', top), P);
    ghost var P' := Painted(P, false);
    tree.Paint(gparent, true, top, Fork(false, P', gparent, u'));
    p', t', h' := top, Fork(true, P', gparent, u'), h + 1;
  }

  /** One iteration of the fix-up loop when the parent is a left child. */
  method FixUnderLeft(tree: Root, node: Node, parent: Node, gparent: Node, ghost p: Path, ghost t: Tree, ghost h: nat)
    returns (node': Node, ghost p': Path, ghost t': Tree, ghost h': nat)
    requires tree.Is(Plug(p, t)) && Hot(p, t, h) && RedPar(p) && t.Fork? && t.node == node
    requires !p.Top? && p.node == parent && !p.up.Top? && p.up.InLeft? && p.up.node == gparent
    modifies tree`root, tree.repr`left, tree.repr`right, tree.repr`parent, tree.repr`red
    ensures tree.Is(Plug(p', t')) && Progress(p, t, p', t', h') && t'.Fork? && t'.node == node'
  {
    hide Root.Is, Root.Mem, InOrder, Hot, Fits, Progress, Balanced;
    HotGrandparent(p, t, h);
    tree.Look(p, t);
    tree.Look(p.up, ParentTree(p, t));
    ghost var top, P, u := p.up.up, ParentTree(p, t), p.up.right;
    tree.Look(InRight(false, P, gparent, top), u);
    var uncle := tree.Right(gparent);
    if uncle != null && tree.IsRed(uncle) {
      node' := gparent;
      p', t', h' := RecolourLeft(tree, parent, gparent, uncle, p, t, h);
      return;
    }
    node', p', t', h' := node, p, t, h;
    var par := parent;
    if tree.Right(parent) == node {
      InnerShape(p, t, h);
      tree.RotateLeft(parent, p.up, P);
      node', par := parent, node;
      p', t' := InLeft(true, node, t.right, p.up), Fork(true, p.left, parent, t.left);
    }
    LeftLeftShape(p', t', h);
    ghost var P' := ParentTree(p', t');
    tree.Paint(par, false, p.up, P');
    ghost var P2 := Painted(P', false);
    tree.Paint(gparent, true, top, Fork(false, P2, gparent, u));
    tree.RotateRight(gparent, top, Fork(true, P2, gparent, u));
    ProgressAfter(p, t, p', t', InLeft(false, par, Fork(true, p'.right, gparent, u), top), h);
    p' := InLeft(false, par, Fork(true, p'.right, gparent, u), top);
  }

  /** A red uncle below a right parent's grandparent: only colours change. */
  method RecolourRight(tree: Root, parent: Node, gparent: Node, uncle: Node, ghost p: Path, ghost t: Tree, ghost h: nat)
    returns (ghost p': Path, ghost t': Tree, ghost h': nat)
    requires tree.Is(Plug(p, t)) && Hot(p, t, h) && RedPar(p)
    requires !p.Top? && p.node == parent && p.up.InRight? && p.up.node == gparent
    requires Red(p.up.left) && Ptr(p.up.left) == uncle
    modifies tree.repr`red
    ensures tree.Is(Plug(p', t')) && Progress(p, t, p', t', h') && t'.Fork? && t'.node == gparent
  {
    hide Root.Is, Root.Mem, InOrder, Hot, Fits, Progress, Balanced;
    HotGrandparent(p, t, h);
    ghost var top, P, u := p.up.up, ParentTree(p, t), p.up.left;
    UncleShape(p, t, h, u);
    tree.Paint(uncle, false, InLeft(false, gparent, P, top), u);
    ghost var u' := Painted(u, false);
    tree.Paint(parent, false, InRight(false, u', gparent, top), P);
    ghost var P' := Painted(P, false);
    tree.Paint(gparent, true, top, Fork(false, u', gparent, P'));
    p', t', h' := top, Fork(true, u', gparent, P'), h + 1;
  }

  /** One iteration of the fix-up loop when the parent is a right child. */
  method FixUnderRight(tree: Root, node: Node, parent: Node, gparent: Node, ghost p: Path, ghost t: Tree, ghost h: nat)
    returns (node': Node, ghost p': Path, ghost t': Tree, ghost h': nat)
    requires tree.Is(Plug(p, t)) && Hot(p, t, h) && RedPar(p) && t.Fork? && t.node == node
    requires !p.Top? && p.node == parent && !p.up.Top? && p.up.InRight? && p.up.node == gparent
    modifies tree`root, tree.repr`left, tree.repr`right, tree.repr`parent, tree.repr`red
    ensures tree.Is(Plug(p', t')) && Progress(p, t, p', t', h') && t'.Fork? && t'.node == node'
  {
    hide Root.Is, Root.Mem, InOrder, Hot, Fits, Progress, Balanced;
    HotGrandparent(p, t, h);
    tree.Look(p, t);
    tree.Look(p.up, ParentTree(p, t));
    ghost var top, P, u := p.up.up, ParentTree(p, t), p.up.left;
    tree.Look(InLeft(false, gparent, P, top), u);
    var uncle := tree.Left(gparent);
    if uncle != null && tree.IsRed(uncle) {
      node' := gparent;
      p', t', h' := RecolourRight(tree, parent, gparent, uncle, p, t, h);
      return;
    }
    node', p', t', h' := node, p, t, h;
    var par := parent;
    if tree.Left(parent) == node {
      InnerShape(p, t, h);
      tree.RotateRight(parent, p.up, P);
      node', par := parent, node;
      p', t' := InRight(true, t.left, node, p.up), Fork(true, t.right, parent, p.right);
    }
    RightRightShape(p', t', h);
    ghost var P' := ParentTree(p', t');
    tree.Paint(par, false, p.up, P');
    ghost var P2 := Painted(P', false);
    tree.Paint(gparent, true, top, Fork(false, u, gparent, P2));
    tree.RotateLeft(gparent, top, Fork(true, u, gparent, P2));
    ProgressAfter(p, t, p', t', InRight(false, Fork(true, u, gparent, p'.left), par, top), h);
    p' := InRight(false, Fork(true, u, gparent, p'.left), par, top);
  }

  /** Restores the colour rules after node was linked in as a red leaf, or became red. */
  method InsertColor(tree: Root, node0: Node, ghost p0: Path, ghost t0: Tree, ghost h0: nat) returns (ghost whole: Tree)
    requires tree.Is(Plug(p0, t0)) && Hot(p0, t0, h0) && t0.Fork? && t0.node == node0
    modifies tree`root, tree.repr`left, tree.repr`right, tree.repr`parent, tree.repr`red
    ensures tree.Is(whole) && RedBlack(whole) && InOrder(whole) == InOrder(Plug(p0, t0))
  {
    hide Root.Is, Root.Mem, InOrder, Hot, Fits, Balanced;
    var node := node0;
    ghost var p, t, h := p0, t0, h0;
    tree.Look(p, t);
    var parent := tree.Parent(node);
    while parent != null && tree.IsRed(parent)
      invariant tree.Is(Plug(p, t)) && Hot(p, t, h) && t.Fork? && t.node == node && node in tree.repr
      invariant tree.repr == old(tree.repr)
      invariant InOrder(Plug(p, t)) == InOrder(Plug(p0, t0))
      invariant parent == Par(p) && (parent != null ==> parent in tree.repr && tree.Mem()[parent].red == RedPar(p))
      decreases Depth(p)
    {
      HotGrandparent(p, t, h);
      tree.Look(p, t);
      tree.Look(p.up, ParentTree(p, t));
      var gparent := tree.Parent(parent);
      if parent == tree.Left(gparent) {
        node, p, t, h := FixUnderLeft(tree, node, parent, gparent, p, t, h);
      } else {
        node, p, t, h := FixUnderRight(tree, node, parent, gparent, p, t, h);
      }
      tree.Look(p, t);
      parent := tree.Parent(node);
    }
    whole := Blackened(p, t, h);
    WholeRoot(tree, Plug(p, t));
    tree.Paint(tree.root, false, Top, Plug(p, t));
  }

  /** Painting the root black removes the last broken place. */
  lemma Blackened(p: Path, t: Tree, h: nat) returns (whole: Tree)
    requires Hot(p, t, h) && !RedPar(p)
    ensures Plug(p, t).Fork? && whole == Painted(Plug(p, t), false)
    ensures RedBlack(whole) && InOrder(whole) == InOrder(Plug(p, t))
  {
    PlugFork(p, t);
    whole := Painted(Plug(p, t), false);
    if p.Top? {
      assert Balanced(whole, h + 1);
    } else {
      assert Balanced(t, h);
      PlugBalanced(p, t, h);
    }
  }

  lemma {:induction false} PlugFork(p: Path, t: Tree)
    requires t.Fork?
    ensures Plug(p, t).Fork?
    decreases p
  {
    if !p.Top? { PlugFork(p.up, ParentTree(p, t)); }
  }

  lemma WholeRoot(tree: Root, whole: Tree)
    requires tree.Is(whole) && whole.Fork?
    ensures tree.root == whole.node && Plug(Top, whole) == whole
  {}
}
