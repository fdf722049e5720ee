/**
  Red-black trees as values: the shape a linked tree has, positions in it, the colour
  rules, and what memory looks like when it holds such a tree.
 */
module RbShape {
  import opened RbNode

  /** A tree of nodes; Leaf is the null pointer. */
  datatype Tree = Leaf | Fork(red: bool, left: Tree, node: Node, right: Tree)

  /** A position in a tree, innermost link first: a left or right child, with what surrounds it. */
  datatype Path =
    | Top
    | InLeft(red: bool, node: Node, right: Tree, up: Path)
    | InRight(red: bool, left: Tree, node: Node, up: Path)

  ghost function Ptr(t: Tree): Node? {
    if t.Leaf? then null else t.node
  }

  ghost function Plug(p: Path, t: Tree): Tree
    decreases p
  {
    match p
    case Top => t
    case InLeft(red, n, right, up) => Plug(up, Fork(red, t, n, right))
    case InRight(red, left, n, up) => Plug(up, Fork(red, left, n, t))
  }

  /** The parent of what is plugged in. */
  ghost function Par(p: Path): Node? {
    if p.Top? then null else p.node
  }

  // ---------------------------------------------------------------- contents

  ghost function InOrder(t: Tree): seq<Node> {
    if t.Leaf? then [] else InOrder(t.left) + [t.node] + InOrder(t.right)
  }

  ghost function Before(p: Path): seq<Node> {
    match p
    case Top => []
    case InLeft(_, _, _, up) => Before(up)
    case InRight(_, left, n, up) => Before(up) + InOrder(left) + [n]
  }

  ghost function After(p: Path): seq<Node> {
    match p
    case Top => []
    case InLeft(_, n, right, up) => [n] + InOrder(right) + After(up)
    case InRight(_, _, _, up) => After(up)
  }

  lemma {:induction false} InOrderPlug(p: Path, t: Tree)
    ensures InOrder(Plug(p, t)) == Before(p) + InOrder(t) + After(p)
    decreases p
  {
    match p
    case Top =>
    case InLeft(red, n, right, up) =>
      InOrderPlug(up, Fork(red, t, n, right));
      Regroup(Before(up), InOrder(t), [n], InOrder(right), After(up));
    case InRight(red, left, n, up) =>
      InOrderPlug(up, Fork(red, left, n, t));
      Regroup(Before(up), InOrder(left), [n], InOrder(t), After(up));
  }

  lemma Regroup(a: seq<Node>, b: seq<Node>, c: seq<Node>, d: seq<Node>, e: seq<Node>)
    ensures a + (b + c + d) + e == a + b + (c + d + e)
    ensures a + (b + c + d) + e == (a + b + c) + d + e
  {}

  ghost function Nodes(t: Tree): set<Node> {
    if t.Leaf? then {} else Nodes(t.left) + {t.node} + Nodes(t.right)
  }

  ghost function PathNodes(p: Path): set<Node> {
    match p
    case Top => {}
    case InLeft(_, n, right, up) => {n} + Nodes(right) + PathNodes(up)
    case InRight(_, left, n, up) => {n} + Nodes(left) + PathNodes(up)
  }

  /** No node occurs twice. */
  ghost predicate Distinct(t: Tree) {
    t.Fork? ==>
      && t.node !in Nodes(t.left) && t.node !in Nodes(t.right) && Nodes(t.left) !! Nodes(t.right)
      && Distinct(t.left) && Distinct(t.right)
  }

  ghost predicate PathDistinct(p: Path) {
    match p
    case Top => true
    case InLeft(_, n, right, up) =>
      && n !in Nodes(right) && n !in PathNodes(up) && Nodes(right) !! PathNodes(up)
      && Distinct(right) && PathDistinct(up)
    case InRight(_, left, n, up) =>
      && n !in Nodes(left) && n !in PathNodes(up) && Nodes(left) !! PathNodes(up)
      && Distinct(left) && PathDistinct(up)
  }

  /** No node occurs twice in a tree and its surroundings. */
  ghost predicate AllDistinct(p: Path, t: Tree) {
    Distinct(t) && PathDistinct(p) && Nodes(t) !! PathNodes(p)
  }

  lemma {:induction false} PlugDistinct(p: Path, t: Tree)
    ensures Distinct(Plug(p, t)) <==> AllDistinct(p, t)
    ensures Nodes(Plug(p, t)) == Nodes(t) + PathNodes(p)
    decreases p
  {
    match p
    case Top =>
    case InLeft(red, n, right, up) => PlugDistinct(up, Fork(red, t, n, right));
    case InRight(red, left, n, up) => PlugDistinct(up, Fork(red, left, n, t));
  }

  // ---------------------------------------------------------------- colours and heights

  ghost predicate Red(t: Tree) {
    t.Fork? && t.red
  }

  ghost predicate RedPar(p: Path) {
    !p.Top? && p.red
  }

  /** No red node has a red child, and every way down meets h black nodes. */
  ghost predicate Balanced(t: Tree, h: nat) {
    match t
    case Leaf => h == 0
    case Fork(red, l, _, r) =>
      if red then !Red(l) && !Red(r) && Balanced(l, h) && Balanced(r, h)
      else h > 0 && Balanced(l, h - 1) && Balanced(r, h - 1)
  }

  ghost predicate RedBlack(t: Tree) {
    !Red(t) && exists h: nat :: Balanced(t, h)
  }

  /** The surroundings obey the rules when a tree of black height h is plugged in; the root is black. */
  ghost predicate Fits(p: Path, h: nat)
    decreases p
  {
    match p
    case Top => true
    case InLeft(red, _, r, up) => Balanced(r, h) && FitsNode(red, r, up) && Fits(up, if red then h else h + 1)
    case InRight(red, l, _, up) => Balanced(l, h) && FitsNode(red, l, up) && Fits(up, if red then h else h + 1)
  }

  /** A red node on the way has a black sibling below it and a black parent above it. */
  ghost predicate FitsNode(red: bool, sibling: Tree, up: Path) {
    red ==> !Red(sibling) && !up.Top? && !RedPar(up)
  }

  /** Plugging in a tree of the right height keeps the rules, unless red meets red. */
  lemma {:induction false} PlugBalanced(p: Path, t: Tree, h: nat)
    requires Fits(p, h) && Balanced(t, h) && !(Red(t) && (p.Top? || RedPar(p)))
    ensures RedBlack(Plug(p, t))
    decreases p
  {
    match p
    case Top =>
    case InLeft(red, n, right, up) => PlugBalanced(up, Fork(red, t, n, right), if red then h else h + 1);
    case InRight(red, left, n, up) => PlugBalanced(up, Fork(red, left, n, t), if red then h else h + 1);
  }

  /** In a red-black tree the surroundings of every subtree fit it. */
  lemma {:induction false} PlugFits(p: Path, t: Tree)
    requires RedBlack(Plug(p, t))
    ensures exists h: nat :: Fits(p, h) && Balanced(t, h)
    ensures !(Red(t) && (p.Top? || RedPar(p)))
    decreases p
  {
    match p
    case Top =>
      var h: nat :| Balanced(t, h);
      assert Fits(p, h) && Balanced(t, h);
    case InLeft(red, n, right, up) =>
      var whole := Fork(red, t, n, right);
      PlugFits(up, whole);
      var h: nat :| Fits(up, h) && Balanced(whole, h);
      assert Fits(p, if red then h else h - 1) && Balanced(t, if red then h else h - 1);
    case InRight(red, left, n, up) =>
      var whole := Fork(red, left, n, t);
      PlugFits(up, whole);
      var h: nat :| Fits(up, h) && Balanced(whole, h);
      assert Fits(p, if red then h else h - 1) && Balanced(t, if red then h else h - 1);
  }

  // ---------------------------------------------------------------- memory

  /** What a node's links and colour are in memory. */
  datatype Fields = Fields(left: Node?, right: Node?, parent: Node?, red: bool)

  type Memory = map<Node, Fields>

  /** Memory holds tree t under the given parent. */
  ghost predicate Holds(m: Memory, t: Tree, parent: Node?) {
    t.Fork? ==>
      && t.node in m && m[t.node] == Fields(Ptr(t.left), Ptr(t.right), parent, t.red)
      && Holds(m, t.left, t.node) && Holds(m, t.right, t.node)
  }

  /** Memory holds the surroundings p of a subtree whose root is hole, in a tree with this root. */
  ghost predicate HoldsPath(m: Memory, root: Node?, p: Path, hole: Node?)
    decreases p
  {
    match p
    case Top => root == hole
    case InLeft(red, n, right, up) =>
      && n in m && m[n] == Fields(hole, Ptr(right), Par(up), red)
      && Holds(m, right, n) && HoldsPath(m, root, up, n)
    case InRight(red, left, n, up) =>
      && n in m && m[n] == Fields(Ptr(left), hole, Par(up), red)
      && Holds(m, left, n) && HoldsPath(m, root, up, n)
  }

  /** Memory holds tree t in surroundings p, no node occurs twice. */
  ghost predicate HoldsAt(m: Memory, root: Node?, p: Path, t: Tree) {
    HoldsPath(m, root, p, Ptr(t)) && Holds(m, t, Par(p)) && AllDistinct(p, t)
  }

  lemma {:induction false} HoldsPlug(m: Memory, root: Node?, p: Path, t: Tree)
    ensures HoldsAt(m, root, p, t) <==> HoldsAt(m, root, Top, Plug(p, t))
    decreases p
  {
    hide Distinct, PathDistinct;
    PlugDistinct(p, t);
    match p
    case Top =>
    case InLeft(red, n, right, up) =>
      PlugDistinct(up, Fork(red, t, n, right));
      HoldsPlug(m, root, up, Fork(red, t, n, right));
    case InRight(red, left, n, up) =>
      PlugDistinct(up, Fork(red, left, n, t));
      HoldsPlug(m, root, up, Fork(red, left, n, t));
  }

  /** Two memories agree on a set of nodes. */
  ghost predicate Same(m: Memory, m': Memory, ns: set<Node>) {
    forall n :: n in ns && n in m ==> n in m' && m'[n] == m[n]
  }

  lemma {:induction false} HoldsSame(m: Memory, m': Memory, t: Tree, parent: Node?)
    requires Holds(m, t, parent) && Same(m, m', Nodes(t))
    ensures Holds(m', t, parent)
  {
    if t.Fork? {
      HoldsSame(m, m', t.left, t.node);
      HoldsSame(m, m', t.right, t.node);
    }
  }

  lemma {:induction false} HoldsPathSame(m: Memory, m': Memory, root: Node?, p: Path, hole: Node?)
    requires HoldsPath(m, root, p, hole) && Same(m, m', PathNodes(p))
    ensures HoldsPath(m', root, p, hole)
    decreases p
  {
    match p
    case Top =>
    case InLeft(red, n, right, up) => HoldsSame(m, m', right, n); HoldsPathSame(m, m', root, up, n);
    case InRight(red, left, n, up) => HoldsSame(m, m', left, n); HoldsPathSame(m, m', root, up, n);
  }

  /** The position one link further down. */
  ghost function LeftOf(p: Path, t: Tree): Path
    requires t.Fork?
  {
    InLeft(t.red, t.node, t.right, p)
  }

  ghost function RightOf(p: Path, t: Tree): Path
    requires t.Fork?
  {
    InRight(t.red, t.left, t.node, p)
  }

  /** Looking at a child instead, and what is then known of the node passed. */
  lemma Descend(m: Memory, root: Node?, p: Path, t: Tree)
    requires HoldsAt(m, root, p, t) && t.Fork?
    ensures t.node in m && m[t.node] == Fields(Ptr(t.left), Ptr(t.right), Par(p), t.red)
    ensures HoldsAt(m, root, LeftOf(p, t), t.left) && HoldsAt(m, root, RightOf(p, t), t.right)
    ensures Apart(t.node, p, t.left, t.right)
  {}

  /** The pieces around a node share nothing. */
  ghost predicate Apart(n: Node, p: Path, l: Tree, r: Tree) {
    && n !in Nodes(l) && n !in Nodes(r) && n !in PathNodes(p)
    && Nodes(l) !! Nodes(r) && Nodes(l) !! PathNodes(p) && Nodes(r) !! PathNodes(p)
  }

  /** Root pointers belong to their pieces. */
  lemma Owned(m: Memory, root: Node?, p: Path, t: Tree)
    requires HoldsAt(m, root, p, t)
    ensures t.Fork? ==> t.node in Nodes(t) && t.node in m && t.node !in PathNodes(p)
    ensures t.Fork? ==> m[t.node].parent == Par(p) && m[t.node].red == t.red
    ensures t.Leaf? ==> Nodes(t) == {}
    ensures !p.Top? ==> p.node in PathNodes(p) && p.node in m && p.node !in Nodes(t)
    ensures p.InLeft? ==> m[p.node] == Fields(Ptr(t), Ptr(p.right), Par(p.up), p.red)
    ensures p.InRight? ==> m[p.node] == Fields(Ptr(p.left), Ptr(t), Par(p.up), p.red)
    ensures p.InRight? && t.Fork? ==> Ptr(p.left) != t.node
    ensures p.InLeft? && t.Fork? ==> Ptr(p.right) != t.node
    ensures p.Top? ==> root == Ptr(t)
  {}

  /** Exchanging a subtree for one with the same order and the same nodes. */
  lemma Replaced(p: Path, t: Tree, t': Tree)
    requires InOrder(t) == InOrder(t')
    ensures InOrder(Plug(p, t)) == InOrder(Plug(p, t'))
  {
    InOrderPlug(p, t);
    InOrderPlug(p, t');
  }

  ghost function Depth(p: Path): nat {
    if p.Top? then 0 else 1 + Depth(p.up)
  }

  ghost function Painted(t: Tree, red: bool): Tree
    requires t.Fork?
  {
    Fork(red, t.left, t.node, t.right)
  }

  lemma PaintedKeeps(p: Path, t: Tree, red: bool)
    requires t.Fork?
    ensures InOrder(Painted(t, red)) == InOrder(t) && Nodes(Painted(t, red)) == Nodes(t)
    ensures AllDistinct(p, t) ==> AllDistinct(p, Painted(t, red))
  {}

  /** Memory after the root of a subtree changed its colour. */
  lemma Repainted(m: Memory, root: Node?, p: Path, t: Tree, red: bool)
    requires HoldsAt(m, root, p, t) && t.Fork?
    ensures t.node in m
    ensures HoldsAt(m[t.node := m[t.node].(red := red)], root, p, Painted(t, red))
  {
    hide Distinct, PathDistinct, PathNodes, HoldsPath;
    var m' := m[t.node := m[t.node].(red := red)];
    PaintedKeeps(p, t, red);
    Descend(m, root, p, t);
    HoldsSame(m, m', t.left, t.node);
    HoldsSame(m, m', t.right, t.node);
    HoldsPathSame(m, m', root, p, t.node);
  }
}
