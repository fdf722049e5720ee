/** Removing a node from the red-black tree, and the colour fix-up that follows. */
module RbErase {
  import opened RbNode
  import opened RbShape
  import opened RbTree
  import opened RbInsert
  import opened RbUnlink

  // ---------------------------------------------------------------- the missing black node

  /**
    The subtree t is one black node short of what its surroundings need; when its root is
    red, painting it black makes up for that.
   */
  ghost predicate Short(p: Path, t: Tree, h: nat) {
    && Fits(p, h + 1)
    && if Red(t) then Balanced(Painted(t, false), h + 1) else Balanced(t, h)
  }

  /** The sibling of the subtree at a position. */
  ghost function Sibling(p: Path): Tree
    requires !p.Top?
  {
    if p.InLeft? then p.right else p.left
  }

  lemma SiblingOfShort(p: Path, t: Tree, h: nat)
    requires Short(p, t, h) && !p.Top?
    ensures Sibling(p).Fork? && Balanced(Sibling(p), h + 1)
    ensures Red(Sibling(p)) ==> !p.red
  {}

  lemma RedPaintedBlack(t: Tree, h: nat)
    requires Red(t) && Balanced(t, h)
    ensures Balanced(Painted(t, false), h + 1)
  {}

  /** What an iteration keeps. */
  ghost predicate Eased(p: Path, t: Tree, p': Path, t': Tree, h': nat) {
    && Short(p', t', h') && InOrder(Plug(p', t')) == InOrder(Plug(p, t))
  }

  /** A red sibling on the right: after one rotation the sibling is black. */
  lemma RedSiblingRight(p: Path, t: Tree, h: nat)
    requires Short(p, t, h) && !Red(t) && p.InLeft? && Red(p.right)
    ensures var o := p.right;
      var p' := InLeft(true, p.node, o.left, InLeft(false, o.node, o.right, p.up));
      && Plug(p', t) == Plug(p.up, LeftRotated(Fork(true, t, p.node, Painted(o, false))))
      && Eased(p, t, p', t, h) && !Red(o.left)
  {
    SiblingOfShort(p, t, h);
    var o := p.right;
    var G := Fork(true, t, p.node, Painted(o, false));
    LeftRotationKeepsOrder(G);
    Replaced(p.up, ParentTree(p, t), LeftRotated(G));
  }

  lemma RedSiblingLeft(p: Path, t: Tree, h: nat)
    requires Short(p, t, h) && !Red(t) && p.InRight? && Red(p.left)
    ensures var o := p.left;
      var p' := InRight(true, o.right, p.node, InRight(false, o.left, o.node, p.up));
      && Plug(p', t) == Plug(p.up, RightRotated(Fork(true, Painted(o, false), p.node, t)))
      && Eased(p, t, p', t, h) && !Red(o.right)
  {
    SiblingOfShort(p, t, h);
    var o := p.left;
    var G := Fork(true, Painted(o, false), p.node, t);
    RightRotationKeepsOrder(G);
    Replaced(p.up, ParentTree(p, t), RightRotated(G));
  }

  /** A black sibling with two black children turns red: the shortage moves up. */
  lemma BlackNephews(p: Path, t: Tree, h: nat) returns (h': nat)
    requires Short(p, t, h) && !Red(t) && !p.Top? && !Red(Sibling(p))
    requires Sibling(p).Fork? && !Red(Sibling(p).left) && !Red(Sibling(p).right)
    ensures var t' := if p.InLeft? then Fork(p.red, t, p.node, Painted(p.right, true))
                      else Fork(p.red, Painted(p.left, true), p.node, t);
      Eased(p, t, p.up, t', h')
  {
    SiblingOfShort(p, t, h);
    var t' := if p.InLeft? then Fork(p.red, t, p.node, Painted(p.right, true))
              else Fork(p.red, Painted(p.left, true), p.node, t);
    Replaced(p.up, ParentTree(p, t), t');
    h' := if p.red then h else h + 1;
  }

  /** A black sibling on the right whose left child is red: a rotation makes its right child red. */
  lemma InnerNephewRight(p: Path, t: Tree, h: nat)
    requires Short(p, t, h) && !Red(t) && p.InLeft? && p.right.Fork? && !p.right.red
    requires Red(p.right.left) && !Red(p.right.right)
    ensures var o := p.right;
      var O := RightRotated(Fork(true, Painted(o.left, false), o.node, o.right));
      && O.Fork? && !O.red && Red(O.right)
      && Eased(p, t, InLeft(p.red, p.node, O, p.up), t, h)
  {
    var o := p.right;
    assert Balanced(o, h + 1) && Balanced(o.left, h) && Balanced(o.right, h);
    var G := Fork(true, Painted(o.left, false), o.node, o.right);
    assert Balanced(RightRotated(G).right, h);
    RightRotationKeepsOrder(G);
    assert InOrder(G) == InOrder(o);
    Replaced(InRight(p.red, t, p.node, p.up), o, RightRotated(G));
  }

  lemma InnerNephewLeft(p: Path, t: Tree, h: nat)
    requires Short(p, t, h) && !Red(t) && p.InRight? && p.left.Fork? && !p.left.red
    requires Red(p.left.right) && !Red(p.left.left)
    ensures var o := p.left;
      var O := LeftRotated(Fork(true, o.left, o.node, Painted(o.right, false)));
      && O.Fork? && !O.red && Red(O.left)
      && Eased(p, t, InRight(p.red, O, p.node, p.up), t, h)
  {
    var o := p.left;
    assert Balanced(o, h + 1) && Balanced(o.right, h) && Balanced(o.left, h);
    var G := Fork(true, o.left, o.node, Painted(o.right, false));
    assert Balanced(LeftRotated(G).left, h);
    LeftRotationKeepsOrder(G);
    assert InOrder(G) == InOrder(o);
    Replaced(InLeft(p.red, p.node, t, p.up), o, LeftRotated(G));
  }

  /** A black sibling on the right whose right child is red: one rotation ends the shortage. */
  lemma OuterNephewRight(p: Path, t: Tree, h: nat)
    requires Short(p, t, h) && !Red(t) && p.InLeft? && p.right.Fork? && !p.right.red && Red(p.right.right)
    ensures var G := Fork(false, t, p.node, Fork(p.red, p.right.left, p.right.node, Painted(p.right.right, false)));
      RedBlack(Plug(p.up, LeftRotated(G))) && InOrder(Plug(p.up, LeftRotated(G))) == InOrder(Plug(p, t))
  {
    var o := p.right;
    var G := Fork(false, t, p.node, Fork(p.red, p.right.left, p.right.node, Painted(p.right.right, false)));
    assert Balanced(o, h + 1) && Balanced(o.left, h) && Balanced(o.right, h);
    LeftRotationKeepsOrder(G);
    assert InOrder(G.right) == InOrder(o);
    Replaced(p.up, ParentTree(p, t), LeftRotated(G));
    RedPaintedBlack(o.right, h);
    assert Balanced(LeftRotated(G).left, h + 1) && Balanced(LeftRotated(G).right, h + 1);
    PlugBalanced(p.up, LeftRotated(G), if p.red then h + 1 else h + 2);
  }

  /** A black sibling on the left whose left child is red: one rotation ends the shortage. */
  lemma OuterNephewLeft(p: Path, t: Tree, h: nat)
    requires Short(p, t, h) && !Red(t) && p.InRight? && p.left.Fork? && !p.left.red && Red(p.left.left)
    ensures var G := Fork(false, Fork(p.red, Painted(p.left.left, false), p.left.node, p.left.right), p.node, t);
      RedBlack(Plug(p.up, RightRotated(G))) && InOrder(Plug(p.up, RightRotated(G))) == InOrder(Plug(p, t))
  {
    var o := p.left;
    var G := Fork(false, Fork(p.red, Painted(p.left.left, false), p.left.node, p.left.right), p.node, t);
    assert Balanced(o, h + 1) && Balanced(o.left, h) && Balanced(o.right, h);
    RightRotationKeepsOrder(G);
    assert InOrder(G.left) == InOrder(o);
    Replaced(p.up, ParentTree(p, t), RightRotated(G));
    RedPaintedBlack(o.left, h);
    assert Balanced(RightRotated(G).left, h + 1) && Balanced(RightRotated(G).right, h + 1);
    PlugBalanced(p.up, RightRotated(G), if p.red then h + 1 else h + 2);
  }

  // ---------------------------------------------------------------- the fix-up loop

  /** The short subtree is a left child with a red sibling: afterwards its sibling is black. */
  method BlackenSiblingRight(tree: Root, parent: Node, other: Node, ghost p: Path, ghost t: Tree, ghost h: nat)
    returns (ghost p': Path)
    requires tree.Is(Plug(p, t)) && Short(p, t, h) && !Red(t)
    requires p.InLeft? && p.node == parent && Red(p.right) && p.right.node == other
    modifies tree`root, tree.repr`left, tree.repr`right, tree.repr`parent, tree.repr`red
    ensures tree.Is(Plug(p', t)) && Eased(p, t, p', t, h)
    ensures p'.InLeft? && p'.red && p'.node == parent && !Red(p'.right)
  {
    hide Root.Is, Root.Mem, InOrder, Short, Eased, Fits, Balanced;
    SiblingOfShort(p, t, h);
    RedSiblingRight(p, t, h);
    ghost var o := p.right;
    tree.Paint(other, false, InRight(p.red, t, parent, p.up), o);
    ghost var o' := Painted(o, false);
    tree.Paint(parent, true, p.up, Fork(p.red, t, parent, o'));
    tree.RotateLeft(parent, p.up, Fork(true, t, parent, o'));
    p' := InLeft(true, parent, o.left, InLeft(false, other, o.right, p.up));
  }

  /** The short subtree is a left child, its black sibling has a red left and a black right child. */
  method TurnNephewRight(tree: Root, parent: Node, other: Node, ghost p: Path, ghost t: Tree, ghost h: nat)
    returns (ghost p': Path)
    requires tree.Is(Plug(p, t)) && Short(p, t, h) && !Red(t)
    requires p.InLeft? && p.node == parent && p.right.Fork? && !p.right.red && p.right.node == other
    requires Red(p.right.left) && !Red(p.right.right)
    modifies tree`root, tree.repr`left, tree.repr`right, tree.repr`parent, tree.repr`red
    ensures tree.Is(Plug(p', t)) && Eased(p, t, p', t, h)
    ensures p'.InLeft? && p'.node == parent && p'.right.Fork? && !p'.right.red && Red(p'.right.right)
  {
    hide Root.Is, Root.Mem, InOrder, Short, Eased, Fits, Balanced, RedBlack;
    ghost var o := p.right;
    ghost var spot := InRight(p.red, t, parent, p.up);
    tree.Look(spot, o);
    InnerNephewRight(p, t, h);
    tree.Paint(tree.Left(other), false, LeftOf(spot, o), o.left);
    ghost var o1 := Fork(false, Painted(o.left, false), other, o.right);
    tree.Paint(other, true, spot, o1);
    tree.RotateRight(other, spot, Painted(o1, true));
    p' := InLeft(p.red, parent, RightRotated(Painted(o1, true)), p.up);
  }

  /** The short subtree is a left child, its black sibling has a red right child: the shortage ends. */
  method BorrowRight(tree: Root, parent: Node, other: Node, ghost p: Path, ghost t: Tree, ghost h: nat)
    returns (ghost whole: Tree)
    requires tree.Is(Plug(p, t)) && Short(p, t, h) && !Red(t)
    requires p.InLeft? && p.node == parent && p.right.Fork? && !p.right.red && p.right.node == other
    requires Red(p.right.right)
    modifies tree`root, tree.repr`left, tree.repr`right, tree.repr`parent, tree.repr`red
    ensures tree.Is(whole) && RedBlack(whole) && InOrder(whole) == InOrder(Plug(p, t))
  {
    hide Root.Is, Root.Mem, InOrder, Short, Eased, Fits, Balanced, RedBlack;
    ghost var o := p.right;
    ghost var spot := InRight(p.red, t, parent, p.up);
    OuterNephewRight(p, t, h);
    tree.Look(p, t);
    tree.Paint(other, tree.IsRed(parent), spot, o);
    ghost var o2 := Painted(o, p.red);
    tree.Paint(parent, false, p.up, Fork(p.red, t, parent, o2));
    ghost var spot2 := InRight(false, t, parent, p.up);
    tree.Look(spot2, o2);
    tree.Paint(tree.Right(other), false, RightOf(spot2, o2), o2.right);
    ghost var o3 := Fork(p.red, o.left, other, Painted(o.right, false));
    tree.RotateLeft(parent, p.up, Fork(false, t, parent, o3));
    whole := Plug(p.up, LeftRotated(Fork(false, t, parent, o3)));
  }

  /** The short subtree is a right child with a red sibling: afterwards its sibling is black. */
  method BlackenSiblingLeft(tree: Root, parent: Node, other: Node, ghost p: Path, ghost t: Tree, ghost h: nat)
    returns (ghost p': Path)
    requires tree.Is(Plug(p, t)) && Short(p, t, h) && !Red(t)
    requires p.InRight? && p.node == parent && Red(p.left) && p.left.node == other
    modifies tree`root, tree.repr`left, tree.repr`right, tree.repr`parent, tree.repr`red
    ensures tree.Is(Plug(p', t)) && Eased(p, t, p', t, h)
    ensures p'.InRight? && p'.red && p'.node == parent && !Red(p'.left)
  {
    hide Root.Is, Root.Mem, InOrder, Short, Eased, Fits, Balanced;
    SiblingOfShort(p, t, h);
    RedSiblingLeft(p, t, h);
    ghost var o := p.left;
    tree.Paint(other, false, InLeft(p.red, parent, t, p.up), o);
    ghost var o' := Painted(o, false);
    tree.Paint(parent, true, p.up, Fork(p.red, o', parent, t));
    tree.RotateRight(parent, p.up, Fork(true, o', parent, t));
    p' := InRight(true, o.right, parent, InRight(false, o.left, other, p.up));
  }

  /** The short subtree is a right child, its black sibling has a red right and a black left child. */
  method TurnNephewLeft(tree: Root, parent: Node, other: Node, ghost p: Path, ghost t: Tree, ghost h: nat)
    returns (ghost p': Path)
    requires tree.Is(Plug(p, t)) && Short(p, t, h) && !Red(t)
    requires p.InRight? && p.node == parent && p.left.Fork? && !p.left.red && p.left.node == other
    requires Red(p.left.right) && !Red(p.left.left)
    modifies tree`root, tree.repr`left, tree.repr`right, tree.repr`parent, tree.repr`red
    ensures tree.Is(Plug(p', t)) && Eased(p, t, p', t, h)
    ensures p'.InRight? && p'.node == parent && p'.left.Fork? && !p'.left.red && Red(p'.left.left)
  {
    hide Root.Is, Root.Mem, InOrder, Short, Eased, Fits, Balanced, RedBlack;
    ghost var o := p.left;
    ghost var spot := InLeft(p.red, parent, t, p.up);
    tree.Look(spot, o);
    InnerNephewLeft(p, t, h);
    tree.Paint(tree.Right(other), false, RightOf(spot, o), o.right);
    ghost var o1 := Fork(false, o.left, other, Painted(o.right, false));
    tree.Paint(other, true, spot, o1);
    tree.RotateLeft(other, spot, Painted(o1, true));
    p' := InRight(p.red, LeftRotated(Painted(o1, true)), parent, p.up);
  }

  /** The short subtree is a right child, its black sibling has a red left child: the shortage ends. */
  method BorrowLeft(tree: Root, parent: Node, other: Node, ghost p: Path, ghost t: Tree, ghost h: nat)
    returns (ghost whole: Tree)
    requires tree.Is(Plug(p, t)) && Short(p, t, h) && !Red(t)
    requires p.InRight? && p.node == parent && p.left.Fork? && !p.left.red && p.left.node == other
    requires Red(p.left.left)
    modifies tree`root, tree.repr`left, tree.repr`right, tree.repr`parent, tree.repr`red
    ensures tree.Is(whole) && RedBlack(whole) && InOrder(whole) == InOrder(Plug(p, t))
  {
    hide Root.Is, Root.Mem, InOrder, Short, Eased, Fits, Balanced, RedBlack;
    ghost var o := p.left;
    ghost var spot := InLeft(p.red, parent, t, p.up);
    OuterNephewLeft(p, t, h);
    tree.Look(p, t);
    tree.Paint(other, tree.IsRed(parent), spot, o);
    ghost var o2 := Painted(o, p.red);
    tree.Paint(parent, false, p.up, Fork(p.red, o2, parent, t));
    ghost var spot2 := InLeft(false, parent, t, p.up);
    tree.Look(spot2, o2);
    tree.Paint(tree.Left(other), false, LeftOf(spot2, o2), o2.left);
    ghost var o3 := Fork(p.red, Painted(o.left, false), other, o.right);
    tree.RotateRight(parent, p.up, Fork(false, o3, parent, t));
    whole := Plug(p.up, RightRotated(Fork(false, o3, parent, t)));
  }

  /**
    One iteration of the loop for a left child: either the shortage is over and whole is the
    finished tree, or it has moved to the parent.
   */
  method EaseLeft(tree: Root, parent: Node, ghost p: Path, ghost t: Tree, ghost h: nat)
    returns (ended: bool, ghost whole: Tree, ghost p': Path, ghost t': Tree, ghost h': nat)
    requires tree.Is(Plug(p, t)) && Short(p, t, h) && !Red(t) && p.InLeft? && p.node == parent
    modifies tree`root, tree.repr`left, tree.repr`right, tree.repr`parent, tree.repr`red
    ensures ended ==> tree.Is(whole) && RedBlack(whole) && InOrder(whole) == InOrder(Plug(p, t))
    ensures !ended ==> tree.Is(Plug(p', t')) && Eased(p, t, p', t', h')
    ensures !ended ==> t'.Fork? && t'.node == parent && (t'.red || Depth(p') < Depth(p))
  {
    hide Root.Is, Root.Mem, InOrder, Short, Eased, Fits, Balanced, RedBlack;
    whole, p', t', h' := Leaf, p, t, h;
    SiblingOfShort(p, t, h);
    LookSibling(tree, p, t);
    var other := tree.Right(parent);
    ghost var p1 := p;
    if tree.IsRed(other) {
      p1 := BlackenSiblingRight(tree, parent, other, p, t, h);
      UseEased(p, t, p1, t, h);
      SiblingOfShort(p1, t, h);
      LookSibling(tree, p1, t);
      other := tree.Right(parent);
    } else {
      EasedSelf(p, t, h);
    }
    if (tree.Left(other) == null || !tree.IsRed(tree.Left(other)))
      && (tree.Right(other) == null || !tree.IsRed(tree.Right(other))) {
      h' := BlackNephews(p1, t, h);
      tree.Paint(other, true, InRight(p1.red, t, parent, p1.up), p1.right);
      t', p', ended := Fork(p1.red, t, parent, Painted(p1.right, true)), p1.up, false;
      EasedTrans(p, t, p1, h, p', t', h');
    } else {
      if tree.Right(other) == null || !tree.IsRed(tree.Right(other)) {
        ghost var p2 := p1;
        p1 := TurnNephewRight(tree, parent, other, p2, t, h);
        UseEased(p2, t, p1, t, h);
        LookSibling(tree, p1, t);
        other := tree.Right(parent);
      }
      whole := BorrowRight(tree, parent, other, p1, t, h);
      ended := true;
    }
  }

  /**
    One iteration of the loop for a right child: either the shortage is over and whole is the
    finished tree, or it has moved to the parent.
   */
  method EaseRight(tree: Root, parent: Node, ghost p: Path, ghost t: Tree, ghost h: nat)
    returns (ended: bool, ghost whole: Tree, ghost p': Path, ghost t': Tree, ghost h': nat)
    requires tree.Is(Plug(p, t)) && Short(p, t, h) && !Red(t) && p.InRight? && p.node == parent
    modifies tree`root, tree.repr`left, tree.repr`right, tree.repr`parent, tree.repr`red
    ensures ended ==> tree.Is(whole) && RedBlack(whole) && InOrder(whole) == InOrder(Plug(p, t))
    ensures !ended ==> tree.Is(Plug(p', t')) && Eased(p, t, p', t', h')
    ensures !ended ==> t'.Fork? && t'.node == parent && (t'.red || Depth(p') < Depth(p))
  {
    hide Root.Is, Root.Mem, InOrder, Short, Eased, Fits, Balanced, RedBlack;
    whole, p', t', h' := Leaf, p, t, h;
    SiblingOfShort(p, t, h);
    LookSibling(tree, p, t);
    var other := tree.Left(parent);
    ghost var p1 := p;
    if tree.IsRed(other) {
      p1 := BlackenSiblingLeft(tree, parent, other, p, t, h);
      UseEased(p, t, p1, t, h);
      SiblingOfShort(p1, t, h);
      LookSibling(tree, p1, t);
      other := tree.Left(parent);
    } else {
      EasedSelf(p, t, h);
    }
    if (tree.Left(other) == null || !tree.IsRed(tree.Left(other)))
      && (tree.Right(other) == null || !tree.IsRed(tree.Right(other))) {
      h' := BlackNephews(p1, t, h);
      tree.Paint(other, true, InLeft(p1.red, parent, t, p1.up), p1.left);
      t', p', ended := Fork(p1.red, Painted(p1.left, true), parent, t), p1.up, false;
      EasedTrans(p, t, p1, h, p', t', h');
    } else {
      if tree.Left(other) == null || !tree.IsRed(tree.Left(other)) {
        ghost var p2 := p1;
        p1 := TurnNephewLeft(tree, parent, other, p2, t, h);
        UseEased(p2, t, p1, t, h);
        LookSibling(tree, p1, t);
        other := tree.Left(parent);
      }
      whole := BorrowLeft(tree, parent, other, p1, t, h);
      ended := true;
    }
  }

  lemma UseEased(p: Path, t: Tree, p': Path, t': Tree, h': nat)
    requires Eased(p, t, p', t', h')
    ensures Short(p', t', h') && InOrder(Plug(p', t')) == InOrder(Plug(p, t))
  {}

  lemma EasedSelf(p: Path, t: Tree, h: nat)
    requires Short(p, t, h)
    ensures Eased(p, t, p, t, h)
  {}

  lemma EasedTrans(p: Path, t: Tree, p1: Path, h: nat, p': Path, t': Tree, h': nat)
    requires Eased(p, t, p1, t, h) && Eased(p1, t, p', t', h')
    ensures Eased(p, t, p', t', h')
  {}

  /** The links from the parent to the sibling and on to the sibling's children. */
  lemma LookSibling(tree: Root, p: Path, t: Tree)
    requires tree.Is(Plug(p, t)) && !p.Top? && Sibling(p).Fork?
    ensures p.node in tree.repr && Sibling(p).node in tree.repr
    ensures p.InLeft? ==> tree.Mem()[p.node].right == p.right.node
    ensures p.InRight? ==> tree.Mem()[p.node].left == p.left.node
    ensures var o := Sibling(p);
      && tree.Mem()[o.node].red == o.red
      && tree.Mem()[o.node].left == Ptr(o.left) && tree.Mem()[o.node].right == Ptr(o.right)
      && (o.left.Fork? ==> o.left.node in tree.repr && tree.Mem()[o.left.node].red == o.left.red)
      && (o.right.Fork? ==> o.right.node in tree.repr && tree.Mem()[o.right.node].red == o.right.red)
  {
    hide Root.Is, Root.Mem;
    var o := Sibling(p);
    var spot := if p.InLeft? then InRight(p.red, t, p.node, p.up) else InLeft(p.red, p.node, t, p.up);
    tree.Look(p, t);
    tree.Look(spot, o);
    tree.Look(LeftOf(spot, o), o.left);
    tree.Look(RightOf(spot, o), o.right);
  }

  /** Ends a shortage of one black node below parent, where node (or nothing) hangs. */
  method EraseColor(tree: Root, node0: Node?, parent0: Node?, ghost p0: Path, ghost t0: Tree, ghost h0: nat)
    returns (ghost whole: Tree)
    requires tree.Is(Plug(p0, t0)) && Short(p0, t0, h0) && node0 == Ptr(t0) && parent0 == Par(p0)
    modifies tree`root, tree.repr`left, tree.repr`right, tree.repr`parent, tree.repr`red
    ensures tree.Is(whole) && RedBlack(whole) && InOrder(whole) == InOrder(Plug(p0, t0))
  {
    hide Root.Is, Root.Mem, InOrder, Short, Eased, Fits, Balanced, RedBlack;
    var node, parent := node0, parent0;
    ghost var p, t, h := p0, t0, h0;
    LookRoot(tree, p, t);
    while (node == null || !tree.IsRed(node)) && node != tree.root
      invariant tree.repr == old(tree.repr)
      invariant tree.Is(Plug(p, t)) && Short(p, t, h) && InOrder(Plug(p, t)) == InOrder(Plug(p0, t0))
      invariant node == Ptr(t) && parent == Par(p) && RootLooks(tree, p, t)
      decreases if Red(t) then 0 else 1 + Depth(p)
    {
      ghost var p1, t1, h1 := p, t, h;
      var ended;
      SiblingOfShort(p, t, h);
      if tree.Left(parent) == node {
        ended, whole, p, t, h := EaseLeft(tree, parent, p1, t1, h1);
      } else {
        ended, whole, p, t, h := EaseRight(tree, parent, p1, t1, h1);
      }
      if ended {
        p, t := Top, whole;
        h := ShortWhole(whole);
        LookRoot(tree, p, t);
        node := tree.root;
        break;
      }
      UseEased(p1, t1, p, t, h);
      LookRoot(tree, p, t);
      node := parent;
      parent := tree.Parent(node);
    }
    whole := ShortEnds(p, t, h);
    if node != null {
      tree.Paint(node, false, p, t);
    }
  }

  ghost predicate RootLooks(tree: Root, p: Path, t: Tree)
    reads tree, tree.repr
  {
    && (p.Top? <==> tree.root == Ptr(t))
    && (t.Fork? ==> t.node in tree.repr && tree.Mem()[t.node].red == t.red && tree.Mem()[t.node].parent == Par(p))
    && (!p.Top? ==> p.node in tree.repr)
    && (p.InLeft? ==> tree.Mem()[p.node].left == Ptr(t))
    && (p.InRight? ==> tree.Mem()[p.node].left == Ptr(p.left) && (t.Fork? ==> Ptr(p.left) != t.node))
  }

  lemma LookRoot(tree: Root, p: Path, t: Tree)
    requires tree.Is(Plug(p, t))
    ensures RootLooks(tree, p, t)
  {
    hide Root.Is, Root.Mem;
    tree.Look(p, t);
    if !p.Top? { RootElsewhere(tree, p, t); }
  }

  /** Below the top, the root pointer points into the surroundings. */
  lemma {:induction false} RootElsewhere(tree: Root, p: Path, t: Tree)
    requires tree.Is(Plug(p, t)) && !p.Top?
    ensures tree.root != null && tree.root in PathNodes(p) && tree.root != Ptr(t)
    decreases p
  {
    hide Root.Is, Root.Mem;
    var u := ParentTree(p, t);
    tree.Look(p, t);
    tree.Look(p.up, u);
    PlugDistinctOf(tree, p, t);
    if !p.up.Top? { RootElsewhere(tree, p.up, u); }
  }

  lemma ShortWhole(whole: Tree) returns (h: nat)
    requires RedBlack(whole)
    ensures Short(Top, whole, h) && Plug(Top, whole) == whole
  {
    h :| Balanced(whole, h);
  }

  /** At the end of the loop, painting the subtree black completes the tree. */
  lemma ShortEnds(p: Path, t: Tree, h: nat) returns (whole: Tree)
    requires Short(p, t, h) && (Red(t) || p.Top?)
    ensures whole == Plug(p, if t.Fork? then Painted(t, false) else t)
    ensures RedBlack(whole) && InOrder(whole) == InOrder(Plug(p, t))
  {
    if t.Fork? {
      whole := Plug(p, Painted(t, false));
      Replaced(p, t, Painted(t, false));
      if Red(t) {
        PlugBalanced(p, Painted(t, false), h + 1);
      }
    } else {
      whole := t;
    }
  }

  // ---------------------------------------------------------------- removing a node

  /** What is left of the order when the node at a position goes. */
  ghost function Without(p: Path, t: Tree): seq<Node>
    requires t.Fork?
  {
    Before(p) + InOrder(t.left) + InOrder(t.right) + After(p)
  }

  /** A node with at most one child is replaced by that child. */
  lemma BypassedShape(p: Path, t: Tree, c: Tree) returns (h: nat)
    requires t.Fork? && OnlyChild(t, c) && RedBlack(Plug(p, t))
    ensures InOrder(Plug(p, c)) == Without(p, t)
    ensures t.red ==> RedBlack(Plug(p, c))
    ensures !t.red ==> Short(p, c, h)
  {
    PlugFits(p, t);
    var ht: nat :| Fits(p, ht) && Balanced(t, ht);
    InOrderPlug(p, c);
    if t.red {
      PlugBalanced(p, c, ht);
      h := 0;
    } else {
      h := ht - 1;
      if Red(c) { RedPaintedBlack(c, h); }
    }
  }

  /** A node with two children hands its place and colour to its successor. */
  lemma TakenOverShape(p: Path, t: Tree) returns (h: nat)
    requires t.Fork? && t.left.Fork? && t.right.Fork? && RedBlack(Plug(p, t))
    ensures InOrder(Plug(p, TakenOver(t))) == Without(p, t)
    ensures var w, u := MinPath(t.right, RightOf(p, TakenOver(t))), MinTree(t.right);
      && Plug(w, u.right) == Plug(p, TakenOver(t))
      && (u.red ==> RedBlack(Plug(w, u.right)))
      && (!u.red ==> Short(w, u.right, h))
  {
    var s, base := MinTree(t.right).node, RightOf(p, TakenOver(t));
    var w, u := MinPath(t.right, base), MinTree(t.right);
    TakenOverOrder(p, t);
    PlugMin(t.right, base);
    // as if the successor had taken over while still being in its old place
    PlugFits(p, t);
    var ht: nat :| Fits(p, ht) && Balanced(t, ht);
    PlugBalanced(p, Fork(t.red, t.left, s, t.right), ht);
    PlugFits(w, u);
    var hu: nat :| Fits(w, hu) && Balanced(u, hu);
    if u.red {
      PlugBalanced(w, u.right, hu);
      h := 0;
    } else {
      h := hu - 1;
      if Red(u.right) { RedPaintedBlack(u.right, h); }
    }
  }

  lemma TakenOverOrder(p: Path, t: Tree)
    requires t.Fork? && t.right.Fork?
    ensures InOrder(Plug(p, TakenOver(t))) == Without(p, t)
  {
    InOrderPlug(p, TakenOver(t));
    MinFirst(t.right);
    var s, rest := MinTree(t.right).node, InOrder(RemoveMin(t.right));
    assert InOrder(TakenOver(t)) == InOrder(t.left) + [s] + rest;
    assert Before(p) + (InOrder(t.left) + [s] + rest) == Before(p) + InOrder(t.left) + ([s] + rest);
  }

  /** Removes the node at a position and restores the colour rules. */
  method Erase(tree: Root, node: Node, ghost p: Path, ghost t: Tree) returns (ghost whole: Tree)
    requires tree.Is(Plug(p, t)) && t.Fork? && t.node == node && RedBlack(Plug(p, t))
    modifies tree, tree.repr`left, tree.repr`right, tree.repr`parent, tree.repr`red
    ensures tree.Is(whole) && RedBlack(whole) && tree.repr == old(tree.repr) - {node}
    ensures InOrder(whole) == Without(p, t)
  {
    hide Root.Is, Root.Mem, InOrder, Short, Fits, Balanced, RedBlack, Without, Plug;
    tree.Look(p, t);
    var child, parent, red;
    ghost var w, c, h := p, Leaf, 0;
    if tree.Left(node) == null || tree.Right(node) == null {
      child := if tree.Left(node) == null then tree.Right(node) else tree.Left(node);
      c := if t.left.Leaf? then t.right else t.left;
      h := BypassedShape(p, t, c);
      parent := tree.Parent(node);
      red := tree.IsRed(node);
      Bypass(tree, node, child, p, t, c);
    } else {
      w, c := MinPath(t.right, RightOf(p, TakenOver(t))), MinTree(t.right).right;
      h := TakenOverShape(p, t);
      child, parent, red := TakeOut(tree, node, p, t);
    }
    whole := Plug(w, c);
    if !red {
      whole := EraseColor(tree, child, parent, w, c, h);
    }
  }
}
