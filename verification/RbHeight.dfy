/** What the colour rules are for: the tree stays shallow. */
module RbHeight {
  import opened Binary
  import opened RbNode
  import opened RbShape

  /** The number of nodes on the longest way down. */
  ghost function Height(t: Tree): nat {
    if t.Leaf? then 0
    else
      var l, r := Height(t.left), Height(t.right);
      1 + if l < r then r else l
  }

  lemma {:induction false} BalancedHeight(t: Tree, h: nat)
    requires Balanced(t, h)
    ensures Height(t) <= 2 * h + if Red(t) then 1 else 0
    ensures Pow2(h) <= |InOrder(t)| + 1
  {
    if t.Fork? {
      var g := if t.red then h else h - 1;
      BalancedHeight(t.left, g);
      BalancedHeight(t.right, g);
    }
  }

  /** With n nodes and h black ones on each way down, 2^h is at most n + 1 and no way is longer than 2h. */
  lemma TreeIsShallow(t: Tree) returns (h: nat)
    requires RedBlack(t)
    ensures Balanced(t, h) && Pow2(h) <= |InOrder(t)| + 1 && Height(t) <= 2 * h
    ensures t.Fork? ==> !t.red
  {
    h :| Balanced(t, h);
    BalancedHeight(t, h);
  }
}
