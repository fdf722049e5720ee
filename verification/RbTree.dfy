/**
  The red-black tree on linked nodes: rotations, insertion and removal with their colour
  fix-ups, and in-order iteration by parent pointers.
 */
module RbTree {
  import opened RbNode
  import opened RbShape

  // ---------------------------------------------------------------- rotations on shapes

  ghost function LeftRotated(t: Tree): Tree
    requires t.Fork? && t.right.Fork?
  {
    Fork(t.right.red, Fork(t.red, t.left, t.node, t.right.left), t.right.node, t.right.right)
  }

  ghost function RightRotated(t: Tree): Tree
    requires t.Fork? && t.left.Fork?
  {
    Fork(t.left.red, t.left.left, t.left.node, Fork(t.red, t.left.right, t.node, t.right))
  }

  lemma LeftRotationKeepsOrder(t: Tree)
    requires t.Fork? && t.right.Fork?
    ensures InOrder(LeftRotated(t)) == InOrder(t)
  {
    TurnedAround(InOrder(t.left), [t.node], InOrder(t.right.left), [t.right.node], InOrder(t.right.right));
  }

  lemma TurnedAround(a: seq<Node>, x: seq<Node>, b: seq<Node>, y: seq<Node>, c: seq<Node>)
    ensures (a + x + b) + y + c == a + x + (b + y + c)
  {}

  lemma RightRotationKeepsOrder(t: Tree)
    requires t.Fork? && t.left.Fork?
    ensures InOrder(RightRotated(t)) == InOrder(t)
  {
    var t' := RightRotated(t);
    assert LeftRotated(t') == t;
    LeftRotationKeepsOrder(t');
  }

  lemma LeftRotationKeepsNodes(t: Tree)
    requires t.Fork? && t.right.Fork?
    ensures Nodes(LeftRotated(t)) == Nodes(t)
    ensures Distinct(t) <==> Distinct(LeftRotated(t))
  {}

  lemma RightRotationKeepsNodes(t: Tree)
    requires t.Fork? && t.left.Fork?
    ensures Nodes(RightRotated(t)) == Nodes(t)
    ensures Distinct(t) <==> Distinct(RightRotated(t))
  {
    assert LeftRotated(RightRotated(t)) == t;
    LeftRotationKeepsNodes(RightRotated(t));
  }

  // ---------------------------------------------------------------- changing memory

  /** Memory after t got another parent. */
  lemma Reparented(m: Memory, m': Memory, t: Tree, parent: Node?, parent': Node?)
    requires Holds(m, t, parent) && Distinct(t)
    requires t.Fork? ==> t.node in m' && m'[t.node] == m[t.node].(parent := parent')
    requires forall n :: n in Nodes(t) && n != Ptr(t) && n in m ==> n in m' && m'[n] == m[n]
    ensures Holds(m', t, parent')
  {
    if t.Fork? {
      HoldsSame(m, m', t.left, t.node);
      HoldsSame(m, m', t.right, t.node);
    }
  }

  /** Memory and root after another tree was hung where hole was. */
  ghost predicate Rehung(m: Memory, m': Memory, root': Node?, root: Node?, p: Path, hole': Node?) {
    match p
    case Top => root' == hole'
    case InLeft(_, n, _, _) => root' == root && n in m && n in m' && m'[n] == m[n].(left := hole')
    case InRight(_, _, n, _) => root' == root && n in m && n in m' && m'[n] == m[n].(right := hole')
  }

  lemma Rehang(m: Memory, m': Memory, root: Node?, root': Node?, p: Path, hole: Node?, hole': Node?)
    requires HoldsPath(m, root, p, hole) && PathDistinct(p)
    requires Rehung(m, m', root', root, p, hole')
    requires forall n :: n in PathNodes(p) && n != Par(p) && n in m ==> n in m' && m'[n] == m[n]
    ensures HoldsPath(m', root', p, hole')
  {
    match p
    case Top =>
    case InLeft(red, n, right, up) => HoldsSame(m, m', right, n); HoldsPathSame(m, m', root, up, n);
    case InRight(red, left, n, up) => HoldsSame(m, m', left, n); HoldsPathSame(m, m', root, up, n);
  }

  /** The memory a left rotation leaves behind. */
  lemma LeftRotation(m: Memory, m': Memory, root: Node?, root': Node?, p: Path, t: Tree)
    requires t.Fork? && t.right.Fork? && HoldsAt(m, root, p, t)
    requires Rehung(m, m', root', root, p, t.right.node)
    requires var n, c, b := t.node, t.right.node, t.right.left;
      && n in m' && m'[n] == Fields(Ptr(t.left), Ptr(b), c, t.red)
      && c in m' && m'[c] == Fields(n, Ptr(t.right.right), Par(p), t.right.red)
      && (b.Fork? ==> b.node in m && b.node in m' && m'[b.node] == m[b.node].(parent := n))
      && forall x :: x in m && x != n && x != c && x != Ptr(b) && x != Par(p) ==> x in m' && m'[x] == m[x]
    ensures HoldsAt(m', root', p, LeftRotated(t))
  {
    hide HoldsPath, Nodes, PathNodes, Distinct, PathDistinct, Rehung;
    var below := RightOf(p, t);
    LeftRotationKeepsNodes(t);
    Descend(m, root, p, t);
    Descend(m, root, below, t.right);
    Owned(m, root, p, t);
    BelowNodes(p, t);
    Owned(m, root, LeftOf(below, t.right), t.right.left);
    Rehang(m, m', root, root', p, t.node, t.right.node);
    HoldsSame(m, m', t.left, t.node);
    HoldsSame(m, m', t.right.right, t.right.node);
    Reparented(m, m', t.right.left, t.right.node, t.node);
    LeftRotatedHolds(m', p, t);
  }

  lemma LeftRotatedHolds(m: Memory, p: Path, t: Tree)
    requires t.Fork? && t.right.Fork?
    requires var n, c, b := t.node, t.right.node, t.right.left;
      && n in m && m[n] == Fields(Ptr(t.left), Ptr(b), c, t.red)
      && c in m && m[c] == Fields(n, Ptr(t.right.right), Par(p), t.right.red)
      && Holds(m, t.left, n) && Holds(m, b, n) && Holds(m, t.right.right, c)
    ensures Holds(m, LeftRotated(t), Par(p))
  {}

  /** The memory a right rotation leaves behind. */
  lemma RightRotation(m: Memory, m': Memory, root: Node?, root': Node?, p: Path, t: Tree)
    requires t.Fork? && t.left.Fork? && HoldsAt(m, root, p, t)
    requires Rehung(m, m', root', root, p, t.left.node)
    requires var n, c, b := t.node, t.left.node, t.left.right;
      && n in m' && m'[n] == Fields(Ptr(b), Ptr(t.right), c, t.red)
      && c in m' && m'[c] == Fields(Ptr(t.left.left), n, Par(p), t.left.red)
      && (b.Fork? ==> b.node in m && b.node in m' && m'[b.node] == m[b.node].(parent := n))
      && forall x :: x in m && x != n && x != c && x != Ptr(b) && x != Par(p) ==> x in m' && m'[x] == m[x]
    ensures HoldsAt(m', root', p, RightRotated(t))
  {
    hide HoldsPath, Nodes, PathNodes, Distinct, PathDistinct, Rehung;
    var below := LeftOf(p, t);
    RightRotationKeepsNodes(t);
    Descend(m, root, p, t);
    Descend(m, root, below, t.left);
    Owned(m, root, p, t);
    BelowNodes(p, t);
    Owned(m, root, RightOf(below, t.left), t.left.right);
    Rehang(m, m', root, root', p, t.node, t.left.node);
    HoldsSame(m, m', t.right, t.node);
    HoldsSame(m, m', t.left.left, t.left.node);
    Reparented(m, m', t.left.right, t.left.node, t.node);
    RightRotatedHolds(m', p, t);
  }

  lemma RightRotatedHolds(m: Memory, p: Path, t: Tree)
    requires t.Fork? && t.left.Fork?
    requires var n, c, b := t.node, t.left.node, t.left.right;
      && n in m && m[n] == Fields(Ptr(b), Ptr(t.right), c, t.red)
      && c in m && m[c] == Fields(Ptr(t.left.left), n, Par(p), t.left.red)
      && Holds(m, t.right, n) && Holds(m, b, n) && Holds(m, t.left.left, c)
    ensures Holds(m, RightRotated(t), Par(p))
  {}

  lemma BelowNodes(p: Path, t: Tree)
    requires t.Fork?
    ensures PathNodes(LeftOf(p, t)) == {t.node} + Nodes(t.right) + PathNodes(p)
    ensures PathNodes(RightOf(p, t)) == {t.node} + Nodes(t.left) + PathNodes(p)
    ensures Nodes(t) == {t.node} + Nodes(t.left) + Nodes(t.right)
  {}

  /** Memory after parent's link to node was turned to other. */
  ghost function Hung(m: Memory, parent: Node?, toLeft: bool, other: Node?): Memory
    requires parent != null ==> parent in m
  {
    if parent == null then m
    else if toLeft then m[parent := m[parent].(left := other)]
    else m[parent := m[parent].(right := other)]
  }

  ghost function WithParent(m: Memory, n: Node?, parent: Node?): Memory
    requires n != null ==> n in m
  {
    if n == null then m else m[n := m[n].(parent := parent)]
  }

  /** The link changes of a left rotation, one after the other, and what they amount to. */
  lemma LeftLinks(m: Memory, n: Node, c: Node, b: Node?, parent: Node?, toLeft: bool)
    requires n in m && c in m && (b != null ==> b in m) && (parent != null ==> parent in m)
    requires n != c && n != b && n != parent && c != b && c != parent && (b == null || b != parent)
    ensures var m1 := WithParent(m[n := m[n].(right := b)], b, n);
      var m2 := m1[c := m1[c].(left := n)];
      var m3 := Hung(WithParent(m2, c, parent), parent, toLeft, c);
      var m' := WithParent(m3, n, c);
      && m'.Keys == m.Keys
      && m'[n] == Fields(m[n].left, b, c, m[n].red) && m'[c] == Fields(n, m[c].right, parent, m[c].red)
      && (b != null ==> m'[b] == m[b].(parent := n))
      && (parent != null ==> m'[parent] == Hung(m, parent, toLeft, c)[parent])
      && (forall x :: x in m && x != n && x != c && x != b && x != parent ==> m'[x] == m[x])
  {}

  lemma RightLinks(m: Memory, n: Node, c: Node, b: Node?, parent: Node?, toLeft: bool)
    requires n in m && c in m && (b != null ==> b in m) && (parent != null ==> parent in m)
    requires n != c && n != b && n != parent && c != b && c != parent && (b == null || b != parent)
    ensures var m1 := WithParent(m[n := m[n].(left := b)], b, n);
      var m2 := m1[c := m1[c].(right := n)];
      var m3 := Hung(WithParent(m2, c, parent), parent, toLeft, c);
      var m' := WithParent(m3, n, c);
      && m'.Keys == m.Keys
      && m'[n] == Fields(b, m[n].right, c, m[n].red) && m'[c] == Fields(m[c].left, n, parent, m[c].red)
      && (b != null ==> m'[b] == m[b].(parent := n))
      && (parent != null ==> m'[parent] == Hung(m, parent, toLeft, c)[parent])
      && (forall x :: x in m && x != n && x != c && x != b && x != parent ==> m'[x] == m[x])
  {}

  /** The node, its child, the child's inner child and the parent are different nodes in memory. */
  ghost predicate Turnable(m: Memory, n: Node, c: Node, b: Node?) {
    && n in m && c in m && (b != null ==> b in m)
    && n != c && n != b && c != b
    && var parent := m[n].parent;
       parent != null ==> parent in m && parent != n && parent != c && parent != b
  }

  ghost predicate TurnedLeft(m: Memory, m': Memory, root: Node?, root': Node?, n: Node)
    requires n in m && m[n].right != null && m[n].right in m
  {
    var c, parent := m[n].right, m[n].parent;
    var b := m[c].left;
    && m'.Keys == m.Keys && Turnable(m, n, c, b)
    && m'[n] == Fields(m[n].left, b, c, m[n].red) && m'[c] == Fields(n, m[c].right, parent, m[c].red)
    && (b != null ==> m'[b] == m[b].(parent := n))
    && (if parent == null then root' == c
        else root' == root && m'[parent] == Hung(m, parent, m[parent].left == n, c)[parent])
    && (forall x :: x in m && x != n && x != c && x != b && x != parent ==> m'[x] == m[x])
  }

  ghost predicate TurnedRight(m: Memory, m': Memory, root: Node?, root': Node?, n: Node)
    requires n in m && m[n].left != null && m[n].left in m
  {
    var c, parent := m[n].left, m[n].parent;
    var b := m[c].right;
    && m'.Keys == m.Keys && Turnable(m, n, c, b)
    && m'[n] == Fields(b, m[n].right, c, m[n].red) && m'[c] == Fields(m[c].left, n, parent, m[c].red)
    && (b != null ==> m'[b] == m[b].(parent := n))
    && (if parent == null then root' == c
        else root' == root && m'[parent] == Hung(m, parent, m[parent].right != n, c)[parent])
    && (forall x :: x in m && x != n && x != c && x != b && x != parent ==> m'[x] == m[x])
  }

  // ---------------------------------------------------------------- the tree object

  /** struct rb_root, with the set of nodes in the tree. */
  class Root {
    var root: Node?
    ghost var repr: set<Node>

    constructor ()
      ensures Is(Leaf)
    {
      root, repr := null, {};
    }

    /** What the nodes of the tree hold in memory. */
    ghost function Mem(): (m: Memory)
      reads this, repr`left, repr`right, repr`parent, repr`red
      ensures m.Keys == repr
    {
      map n | n in repr :: Fields(n.left, n.right, n.parent, n.red)
    }

    /** The tree linked up under this root is t, and there are no other nodes. */
    ghost predicate Is(t: Tree)
      reads this, repr`left, repr`right, repr`parent, repr`red
    {
      HoldsAt(Mem(), root, Top, t) && repr == Nodes(t)
    }

    /** What is known of the node at a position. */
    lemma Look(p: Path, t: Tree)
      requires Is(Plug(p, t))
      ensures HoldsAt(Mem(), root, p, t)
      ensures p.Top? ==> root == Ptr(t)
      ensures t.Fork? ==> t.node in repr && Mem()[t.node] == Fields(Ptr(t.left), Ptr(t.right), Par(p), t.red)
      ensures !p.Top? ==> p.node in repr && Mem()[p.node].red == p.red && Mem()[p.node].parent == Par(p.up)
      ensures p.InLeft? ==> Mem()[p.node].left == Ptr(t) && Mem()[p.node].right == Ptr(p.right)
      ensures p.InRight? ==> Mem()[p.node].right == Ptr(t) && Mem()[p.node].left == Ptr(p.left)
      ensures p.InRight? && t.Fork? ==> Mem()[p.node].left != t.node
      ensures p.InLeft? && t.Fork? ==> Mem()[p.node].right != t.node
    {
      hide Mem, Plug, Distinct, PathDistinct, HoldsPath, Holds, HoldsAt, Nodes, PathNodes;
      HoldsPlug(Mem(), root, p, t);
      Owned(Mem(), root, p, t);
      if t.Fork? { Descend(Mem(), root, p, t); }
    }

    /** The converse: the whole tree, from what holds at a position. */
    lemma Whole(p: Path, t: Tree)
      requires HoldsAt(Mem(), root, p, t) && repr == Nodes(t) + PathNodes(p)
      ensures Is(Plug(p, t))
    {
      hide Mem, Plug, Distinct, PathDistinct, HoldsPath, Holds, HoldsAt, Nodes, PathNodes;
      HoldsPlug(Mem(), root, p, t);
      PlugDistinct(p, t);
    }

    function Left(n: Node): (v: Node?)
      requires n in repr
      reads this, repr`left, repr`right, repr`parent, repr`red
      ensures v == Mem()[n].left
    {
      n.left
    }

    function Right(n: Node): (v: Node?)
      requires n in repr
      reads this, repr`left, repr`right, repr`parent, repr`red
      ensures v == Mem()[n].right
    {
      n.right
    }

    function Parent(n: Node): (v: Node?)
      requires n in repr
      reads this, repr`left, repr`right, repr`parent, repr`red
      ensures v == Mem()[n].parent
    {
      n.parent
    }

    function IsRed(n: Node): (v: bool)
      requires n in repr
      reads this, repr`left, repr`right, repr`parent, repr`red
      ensures v == Mem()[n].red
    {
      n.red
    }

    method SetLeft(n: Node, v: Node?)
      requires n in repr
      modifies n`left
      ensures Mem() == old(Mem())[n := old(Mem())[n].(left := v)]
    {
      n.left := v;
    }

    method SetRight(n: Node, v: Node?)
      requires n in repr
      modifies n`right
      ensures Mem() == old(Mem())[n := old(Mem())[n].(right := v)]
    {
      n.right := v;
    }

    method SetParent(n: Node, v: Node?)
      requires n in repr
      modifies n`parent
      ensures Mem() == old(Mem())[n := old(Mem())[n].(parent := v)]
    {
      n.parent := v;
    }

    method SetRed(n: Node, v: bool)
      requires n in repr
      modifies n`red
      ensures Mem() == old(Mem())[n := old(Mem())[n].(red := v)]
    {
      n.red := v;
    }

    /** Drops a node from the set of nodes in the tree. */
    ghost method Drop(n: Node)
      modifies this`repr
      ensures repr == old(repr) - {n} && Mem() == old(Mem()) - {n}
    {
      repr := repr - {n};
    }

    /** Adds a node to the set of nodes in the tree. */
    ghost method Enter(n: Node)
      modifies this`repr
      ensures repr == old(repr) + {n}
      ensures Mem() == old(Mem())[n := Fields(n.left, n.right, n.parent, n.red)]
    {
      repr := repr + {n};
    }

    method SetRoot(v: Node?)
      modifies this`root
      ensures root == v && Mem() == old(Mem())
    {
      root := v;
    }

    /** Hangs other where node was, asking for the left link first. */
    method HangLeftFirst(parent: Node?, node: Node, other: Node?)
      requires parent != null ==> parent in repr
      modifies this`root, repr`left, repr`right
      ensures parent == null ==> root == other && Mem() == old(Mem())
      ensures parent != null ==> root == old(root)
      ensures Mem() == Hung(old(Mem()), parent, parent != null && old(Mem())[parent].left == node, other)
    {
      hide Mem;
      if parent != null {
        if node == Left(parent) {
          SetLeft(parent, other);
        } else {
          SetRight(parent, other);
        }
      } else {
        SetRoot(other);
      }
    }

    /** Hangs other where node was, asking for the right link first. */
    method HangRightFirst(parent: Node?, node: Node, other: Node?)
      requires parent != null ==> parent in repr
      modifies this`root, repr`left, repr`right
      ensures parent == null ==> root == other && Mem() == old(Mem())
      ensures parent != null ==> root == old(root)
      ensures Mem() == Hung(old(Mem()), parent, parent != null && old(Mem())[parent].right != node, other)
    {
      hide Mem;
      if parent != null {
        if node == Right(parent) {
          SetRight(parent, other);
        } else {
          SetLeft(parent, other);
        }
      } else {
        SetRoot(other);
      }
    }

    /** The assignments of a left rotation. */
    method TurnLeft(node: Node)
      requires node in repr && Mem()[node].right != null && Mem()[node].right in repr
      requires Turnable(Mem(), node, Mem()[node].right, Mem()[Mem()[node].right].left)
      modifies this`root, repr`left, repr`right, repr`parent
      ensures TurnedLeft(old(Mem()), Mem(), old(root), root, node)
    {
      hide Mem;
      ghost var m := Mem();
      var right, parent := Right(node), Parent(node);
      ghost var inner := Left(right);
      SetRight(node, Left(right));
      if Left(right) != null {
        SetParent(Left(right), node);
      }
      SetLeft(right, node);
      SetParent(right, parent);
      HangLeftFirst(parent, node, right);
      SetParent(node, right);
      LeftLinks(m, node, right, inner, parent, parent != null && m[parent].left == node);
    }

    method RotateLeft(node: Node, ghost p: Path, ghost t: Tree)
      requires Is(Plug(p, t)) && t.Fork? && t.right.Fork? && t.node == node
      modifies this`root, repr`left, repr`right, repr`parent
      ensures Is(Plug(p, LeftRotated(t)))
    {
      hide Mem, HoldsPath, Holds, HoldsAt, Nodes, PathNodes, Plug;
      Look(p, t);
      PlugDistinct(p, t);
      ghost var m, root0 := Mem(), root;
      RotationFacts(m, root, p, t);
      TurnLeft(node);
      LeftRotation(m, Mem(), root0, root, p, t);
      LeftRotationKeepsNodes(t);
      Whole(p, LeftRotated(t));
    }

    /** The assignments of a right rotation. */
    method TurnRight(node: Node)
      requires node in repr && Mem()[node].left != null && Mem()[node].left in repr
      requires Turnable(Mem(), node, Mem()[node].left, Mem()[Mem()[node].left].right)
      modifies this`root, repr`left, repr`right, repr`parent
      ensures TurnedRight(old(Mem()), Mem(), old(root), root, node)
    {
      hide Mem;
      ghost var m := Mem();
      var left, parent := Left(node), Parent(node);
      ghost var inner := Right(left);
      SetLeft(node, Right(left));
      if Right(left) != null {
        SetParent(Right(left), node);
      }
      SetRight(left, node);
      SetParent(left, parent);
      HangRightFirst(parent, node, left);
      SetParent(node, left);
      RightLinks(m, node, left, inner, parent, parent != null && m[parent].right != node);
    }

    method RotateRight(node: Node, ghost p: Path, ghost t: Tree)
      requires Is(Plug(p, t)) && t.Fork? && t.left.Fork? && t.node == node
      modifies this`root, repr`left, repr`right, repr`parent
      ensures Is(Plug(p, RightRotated(t)))
    {
      hide Mem, HoldsPath, Holds, HoldsAt, Nodes, PathNodes, Plug;
      Look(p, t);
      PlugDistinct(p, t);
      ghost var m, root0 := Mem(), root;
      RotationFacts(m, root, p, t);
      TurnRight(node);
      RightRotation(m, Mem(), root0, root, p, t);
      RightRotationKeepsNodes(t);
      Whole(p, RightRotated(t));
    }

    /** Colours the node at a position. */
    method Paint(node: Node, red: bool, ghost p: Path, ghost t: Tree)
      requires Is(Plug(p, t)) && t.Fork? && t.node == node
      modifies repr`red
      ensures Is(Plug(p, Painted(t, red)))
    {
      hide Mem, HoldsPath, Holds, HoldsAt, Nodes, PathNodes, Plug;
      Look(p, t);
      PlugDistinct(p, t);
      ghost var m := Mem();
      SetRed(node, red);
      Repainted(m, root, p, t, red);
      PaintedKeeps(p, t, red);
      Whole(p, Painted(t, red));
    }
  }

  /** The links around a node that is about to be rotated. */
  lemma RotationFacts(m: Memory, root: Node?, p: Path, t: Tree)
    requires HoldsAt(m, root, p, t) && t.Fork?
    ensures t.node in m && m[t.node] == Fields(Ptr(t.left), Ptr(t.right), Par(p), t.red)
    ensures !p.Top? ==> p.node in m && p.node != t.node
    ensures p.InLeft? ==> m[p.node].left == t.node && m[p.node].right != t.node
    ensures p.InRight? ==> m[p.node].right == t.node && m[p.node].left != t.node
    ensures p.Top? ==> root == t.node
    ensures t.right.Fork? ==> ChildFacts(m, p, t, t.right, t.right.left)
    ensures t.right.Fork? ==> m[t.right.node] == Fields(Ptr(t.right.left), Ptr(t.right.right), t.node, t.right.red)
    ensures t.left.Fork? ==> ChildFacts(m, p, t, t.left, t.left.right)
    ensures t.left.Fork? ==> m[t.left.node] == Fields(Ptr(t.left.left), Ptr(t.left.right), t.node, t.left.red)
  {
    hide Nodes, PathNodes, Distinct, PathDistinct, HoldsPath, Holds, HoldsAt, Apart;
    Descend(m, root, p, t);
    Owned(m, root, p, t);
    if t.right.Fork? {
      ChildApart(m, root, p, t, RightOf(p, t), t.right, t.right.left);
      Descend(m, root, RightOf(p, t), t.right);
    }
    if t.left.Fork? {
      ChildApart(m, root, p, t, LeftOf(p, t), t.left, t.left.right);
      Descend(m, root, LeftOf(p, t), t.left);
    }
  }

  ghost predicate ChildFacts(m: Memory, p: Path, t: Tree, c: Tree, b: Tree) {
    && t.Fork? && c.Fork? && c.node in m && c.node != t.node && c.node != Par(p)
    && (b.Fork? ==> b.node in m && b.node != t.node && b.node != c.node && b.node != Par(p))
  }

  lemma ChildApart(m: Memory, root: Node?, p: Path, t: Tree, below: Path, c: Tree, b: Tree)
    requires t.Fork? && c.Fork? && (c.left == b || c.right == b)
    requires HoldsAt(m, root, p, t) && HoldsAt(m, root, below, c)
    requires below == LeftOf(p, t) || below == RightOf(p, t)
    ensures ChildFacts(m, p, t, c, b)
  {
    assert Holds(m, c, t.node) && Holds(m, b, c.node);
  }
}
