/** The timer queue over the red-black tree: adding, deleting, the next expiry, and firing. */
module Timer {
  import opened RbNode
  import opened RbShape
  import opened RbTree
  import opened RbInsert
  import opened RbErase
  import opened RbIter
  import opened RbLink
  import opened TimerSpec

  /** nearest_p: null, or how long select may wait. */
  datatype Nearest = Never | In(delay: Timeval)

  /** The largest long, a second count that stands for "never". */
  const LONG_MAX := 0x7fff_ffff_ffff_ffff

  class TimerQueue {
    const tree: Root
    var nearest: Nearest
    var eviction: seq<Node>
    ghost var whole: Tree
    ghost const timers: set<Node>

    constructor (ghost timers: set<Node>)
      requires forall n :: n in timers ==> !n.active
      ensures Valid() && this.timers == timers && View().order == [] && nearest == Never
    {
      tree := new Root();
      nearest, eviction, whole, this.timers := Never, [], Leaf, timers;
      assert Balanced(Leaf, 0);
    }

    /** The timeout field of every timer. */
    ghost function Times(): (m: map<Node, Timeval>)
      reads timers`timeout
      ensures m.Keys == timers
      ensures forall n :: n in timers ==> m[n] == n.timeout
    {
      map n | n in timers :: n.timeout
    }

    ghost function View(): Queue
      reads this, timers`timeout
    {
      Queue(InOrder(whole), eviction, Times())
    }

    /** Everything but the sorting: exactly the active timers are in the tree, the evicted among them. */
    ghost predicate Linked()
      reads this, tree, timers`active, timers`left, timers`right, timers`parent, timers`red
    {
      && tree.repr <= timers && tree.Is(whole) && RedBlack(whole)
      && (forall n :: n in timers ==> (n.active <==> n in tree.repr))
      && NoTwice(eviction) && Among(eviction, InOrder(whole))
    }

    ghost predicate Valid()
      reads this, tree, timers
    {
      Linked() && Well(View())
    }

    lemma LinkedWell()
      requires Linked()
      ensures forall n :: n in timers ==> (n in View().order <==> n.active)
      ensures NoTwice(View().order) && Timed(View().order, View().time)
      ensures Sorted(View().order, View().time) ==> Valid()
    {
      OrderDistinct(whole);
      forall n | n in timers ensures n in InOrder(whole) <==> n in tree.repr {
        OrderNodes(whole, n);
      }
      forall i | 0 <= i < |InOrder(whole)| ensures InOrder(whole)[i] in Times() {
        OrderNodes(whole, InOrder(whole)[i]);
      }
    }

    /** osmo_timer_del */
    method Del(timer: Node)
      requires Linked() && timer in timers
      modifies this`eviction, this`whole, tree, timers`left, timers`right, timers`parent, timers`red, timer`active
      ensures Linked() && View() == Cancel(old(View()), timer) && !timer.active
      ensures forall n :: n in timers && n != timer ==> n.active == old(n.active)
    {
      hide Root.Is, Root.Mem, RedBlack, InOrder, NoTwice, Among, Times, Without, Removed;
      LinkedWell();
      RemovedFromBoth(eviction, InOrder(whole), timer);
      AmongNotIn(eviction, InOrder(whole), timer);
      if timer.active {
        timer.active := false;
        Unlink(timer);
        if timer in eviction {
          eviction := Removed(eviction, timer);
        }
      }
      assert Times() == old(Times());
    }

    /** rb_erase of a timer in the tree. */
    method Unlink(timer: Node)
      requires tree.repr <= timers && tree.Is(whole) && RedBlack(whole) && timer in tree.repr
      modifies this`whole, tree, timers`left, timers`right, timers`parent, timers`red
      ensures tree.Is(whole) && RedBlack(whole) && tree.repr == old(tree.repr) - {timer}
      ensures InOrder(whole) == Removed(old(InOrder(whole)), timer)
    {
      hide Root.Mem, RedBlack, InOrder, NoTwice;
      ghost var s := InOrder(whole);
      OrderNodes(whole, timer);
      OrderDistinct(whole);
      ghost var i: nat :| i < |s| && s[i] == timer;
      ghost var p, t := Locate(whole, Top, whole, i);
      SplitHere(whole, p, t, s, i);
      RemovedAt(s, i);
      whole := Erase(tree, timer, p, t);
    }

    /** __add_timer: down the tree, to the right at equal timeouts, and the node linked in there. */
    method Insert(timer: Node)
      requires tree.repr <= timers && tree.Is(whole) && RedBlack(whole) && timer in timers && timer !in tree.repr
      requires Timed(InOrder(whole), Times()) && Sorted(InOrder(whole), Times())
      modifies this`whole, tree, timers`left, timers`right, timers`parent, timers`red
      ensures tree.Is(whole) && RedBlack(whole) && tree.repr == old(tree.repr) + {timer}
      ensures var s := old(InOrder(whole)); var k := Expired(s, old(Times()), timer.timeout);
        InOrder(whole) == s[..k] + [timer] + s[k..]
    {
      hide Root.Is, Root.Mem, RedBlack, InOrder, Times, Expired, Sorted, Before, After, Plug, LeftOf, RightOf, RedLeaf,
        Less;
      ghost var s := InOrder(whole);
      ghost var k := Expired(s, Times(), timer.timeout);
      ghost var p, t := Top, whole;
      var cur, parent, toLeft := tree.root, null, false;
      TopOrder(whole);
      tree.Look(p, t);
      while cur != null
        modifies {}
        invariant Plug(p, t) == whole && cur == Ptr(t) && parent == Par(p)
        invariant parent != null ==> toLeft == p.InLeft?
        invariant |Before(p)| <= k <= |Before(p) + InOrder(t)|
        decreases t
      {
        ghost var i := |Before(p) + InOrder(t.left)|;
        BelowOrder(p, t);
        tree.Look(p, t);
        tree.Look(LeftOf(p, t), t.left);
        tree.Look(RightOf(p, t), t.right);
        Split(p, t, i);
        ExpiredSplits(s, Times(), timer.timeout, i);
        parent := cur;
        if Less(timer.timeout, cur.timeout) {
          p, t := LeftOf(p, t), t.left;
          cur, toLeft := tree.Left(cur), true;
        } else {
          p, t := RightOf(p, t), t.right;
          cur, toLeft := tree.Right(cur), false;
        }
      }
      LeafAt(p, timer, s, k);
      LeafNode(timer);
      LinkNode(tree, timer, parent, toLeft, p);
      whole := InsertColor(tree, timer, p, RedLeaf(timer), 0);
    }

    /** osmo_timer_add; the order but for this timer has to be sorted. */
    method Add(timer: Node)
      requires Linked() && timer in timers
      requires Timed(Removed(View().order, timer), Times()) && Sorted(Removed(View().order, timer), Times())
      modifies this`eviction, this`whole, tree, timers`left, timers`right, timers`parent, timers`red, timer`active
      ensures Linked() && Timed(old(View()).order, old(Times())) && View() == Arm(old(View()), timer, timer.timeout)
    {
      hide Root.Is, Root.Mem, RedBlack, InOrder, Times, Expired, Sorted, NoTwice, Among, Removed, Timed;
      LinkedWell();
      Del(timer);
      timer.active := true;
      ghost var s := InOrder(whole);
      Insert(timer);
      PlacedAmong(eviction, s, Expired(s, Times(), timer.timeout), timer);
      assert Times() == old(Times()) == old(Times())[timer := timer.timeout];
    }

    /** osmo_timer_schedule, reading the current time now. */
    method Schedule(timer: Node, seconds: int, microseconds: int, now: Timeval)
      requires Valid() && timer in timers
      modifies this`eviction, this`whole, tree, timers`left, timers`right, timers`parent, timers`red
      modifies timer`active, timer`timeout
      ensures Valid() && View() == Arm(old(View()), timer, Sum(Timeval(seconds, microseconds), now))
    {
      hide Linked, InOrder, Times, Well, Arm, Sum, Removed, Sorted;
      ghost var q, at := View(), Sum(Timeval(seconds, microseconds), now);
      SetAhead(q, timer, at);
      timer.timeout := Sum(Timeval(seconds, microseconds), now);
      assert Times() == q.time[timer := at];
      Add(timer);
    }

    /** One call of a callback. */
    method Perform(call: Call)
      requires Valid() && call.timer in timers
      modifies this`eviction, this`whole, tree, timers`left, timers`right, timers`parent, timers`red
      modifies timers`active, timers`timeout
      ensures Valid() && View() == Do(old(View()), call)
    {
      hide Linked, InOrder, Times, Arm, Sum, Removed, Sorted, Among, NoTwice;
      ghost var q := View();
      DoKeeps(q, call);
      match call
      case Add(n) =>
        SetAhead(q, n, n.timeout);
        assert Times() == q.time[n := n.timeout];
        Add(n);
      case Schedule(n, seconds, microseconds, now) =>
        Schedule(n, seconds, microseconds, now);
      case Del(n) =>
        Del(n);
    }

    /** A callback, as the calls it makes. */
    method Run(calls: seq<Call>)
      requires Valid() && Known(calls, timers)
      modifies this`eviction, this`whole, tree, timers`left, timers`right, timers`parent, timers`red
      modifies timers`active, timers`timeout
      ensures Valid() && View() == DoAll(old(View()), calls)
    {
      hide Linked, InOrder, Times, Well, Do, Among, NoTwice;
      for i := 0 to |calls|
        invariant Valid() && Known(calls[i..], timers)
        invariant DoAll(View(), calls[i..]) == DoAll(old(View()), calls)
      {
        assert calls[i..][0] == calls[i] && calls[i..][1..] == calls[i + 1..];
        DoKeeps(View(), calls[i]);
        Perform(calls[i]);
      }
    }

    /** The first loop of osmo_timers_update: collects what has expired. */
    method Evict(now: Timeval)
      requires Valid() && eviction == []
      modifies this`eviction
      ensures Valid() && View() == Evicted(old(View()), now)
    {
      hide Root.Is, Root.Mem, RedBlack, InOrder, Times, Expired, Reversed, Sorted, Removed, NoTwice, Among, Balanced;
      ghost var s, q := InOrder(whole), View();
      EvictedKeeps(q, now);
      LinkedWell();
      var n := First(tree, whole);
      ghost var i := 0;
      NoneReversed();
      while n != null
        modifies this`eviction
        invariant i <= Expired(s, Times(), now) && n == if i < |s| then s[i] else null
        invariant eviction == Reversed(s[..i])
        invariant n != null ==> i < |s|
        decreases |s| - i
      {
        ExpiredSplits(s, Times(), now, i);
        if Less(now, n.timeout) {
          break;
        }
        ReversedGrows(s, i);
        eviction := [n] + eviction;
        n := Next(tree, n, whole, i);
        i := i + 1;
      }
    }

    lemma HeadKnown()
      requires Valid()
      ensures NoTwice(eviction) && View().time.Keys == timers
      ensures eviction != [] ==> eviction[0] in timers
    {
      if eviction != [] {
        assert eviction[0] in View().order;
      }
    }

    /** osmo_timers_update: fires what has expired; the callbacks do as the script says. */
    method Update(now: Timeval, script: seq<seq<Call>>) returns (work: bool, ghost fired: seq<Node>)
      requires Valid() && eviction == [] && AllKnown(script, timers)
      modifies this`eviction, this`whole, tree, timers`left, timers`right, timers`parent, timers`red
      modifies timers`active, timers`timeout
      ensures Valid() && eviction == []
      ensures Outcome(View(), fired) == TimerSpec.Update(old(View()), now, script)
      ensures work <==> fired != []
    {
      hide Linked, InOrder, Times, DoAll, AllKnown, Evicted, Well, Removed, Callback, Pass;
      work, fired := false, [];
      HeadKnown();
      EvictedKeeps(View(), now);
      Evict(now);
      ghost var q := View();
      HeadKnown();
      var k := 0;
      while eviction != []
        invariant Valid() && work == (fired != []) && k == |fired|
        invariant Pass(View(), script, k).queue == Pass(q, script, 0).queue
        invariant fired + Pass(View(), script, k).fired == Pass(q, script, 0).fired
        decreases |eviction|
      {
        HeadKnown();
        ghost var q1 := Turn(View(), script, k);
        var timer := eviction[0];
        fired := fired + [timer];
        Del(timer);
        Run(Callback(script, k));
        k, work := k + 1, true;
      }
      NothingLeft(View(), script, k);
    }

    /** osmo_timers_prepare with update_nearest. */
    method Prepare(now: Timeval)
      requires Valid() && Normal(now) && forall n :: n in timers ==> Normal(n.timeout) && n.timeout.sec <= LONG_MAX
      modifies this`nearest
      ensures nearest.Never? ==> forall n :: n in timers && n.active ==> n.timeout.sec == LONG_MAX
      ensures nearest.In? ==> Normal(nearest.delay)
      ensures nearest.In? ==> forall n :: n in timers && n.active ==> Micros(nearest.delay) <= Left(n.timeout, now)
      ensures nearest.In? ==> exists n ::
        && n in timers && n.active && n.timeout.sec < LONG_MAX
        && Micros(nearest.delay) == Left(n.timeout, now)
    {
      ghost var s := InOrder(whole);
      LinkedWell();
      var n := First(tree, whole);
      if n == null {
        nearest := Never;
      } else {
        if n.timeout.sec != LONG_MAX {
          nearest := In(if Less(now, n.timeout) then Difference(n.timeout, now) else Timeval(0, 0));
        } else {
          nearest := Never;
        }
      }
    }

    /** osmo_timers_check: how many timers are active. */
    method Check() returns (i: nat)
      requires Valid()
      ensures i == |set n | n in timers && n.active|
    {
      ghost var s := InOrder(whole);
      var n := First(tree, whole);
      i := 0;
      while n != null
        invariant i <= |s| && n == if i < |s| then s[i] else null
        decreases |s| - i
      {
        n := Next(tree, n, whole, i);
        i := i + 1;
      }
      OrderCount(whole);
      assert (set n | n in timers && n.active) == Nodes(whole);
    }
  }

  /** The time left until a timeout, in microseconds. */
  ghost function Left(timeout: Timeval, now: Timeval): int {
    if Micros(timeout) > Micros(now) then Micros(timeout) - Micros(now) else 0
  }

  lemma NothingLeft(q: Queue, script: seq<seq<Call>>, k: nat)
    requires Well(q) && AllKnown(script, q.time.Keys) && q.due == []
    ensures Pass(q, script, k) == Outcome(q, [])
  {}

  lemma NoneReversed()
    ensures Reversed([]) == []
  {}

  lemma {:induction false} OrderCount(t: Tree)
    requires Distinct(t)
    ensures |InOrder(t)| == |Nodes(t)|
  {
    if t.Fork? {
      OrderCount(t.left);
      OrderCount(t.right);
    }
  }

  lemma PlacedAmong(e: seq<Node>, s: seq<Node>, k: nat, n: Node)
    requires Among(e, s) && k <= |s|
    ensures Among(e, s[..k] + [n] + s[k..])
  {
    assert s == s[..k] + s[k..];
  }

  lemma TopOrder(whole: Tree)
    ensures Plug(Top, whole) == whole && Before(Top) == []
    ensures [] + InOrder(whole) == InOrder(whole)
  {}

  lemma BelowOrder(p: Path, t: Tree)
    requires t.Fork?
    ensures Plug(LeftOf(p, t), t.left) == Plug(p, t) == Plug(RightOf(p, t), t.right)
    ensures Par(LeftOf(p, t)) == t.node == Par(RightOf(p, t)) && LeftOf(p, t).InLeft? && RightOf(p, t).InRight?
    ensures Before(LeftOf(p, t)) == Before(p)
    ensures |Before(RightOf(p, t))| == |Before(p) + InOrder(t.left)| + 1
    ensures |Before(RightOf(p, t)) + InOrder(t.right)| == |Before(p) + InOrder(t)|
  {}

  lemma AmongNotIn(s: seq<Node>, t: seq<Node>, n: Node)
    requires Among(s, t)
    ensures n !in t ==> n !in s
  {}

  lemma SplitHere(whole: Tree, p: Path, t: Tree, s: seq<Node>, i: nat)
    requires Plug(p, t) == whole && t.Fork? && i == |Before(p) + InOrder(t.left)| && s == InOrder(whole)
    ensures i < |s| && Without(p, t) == s[..i] + s[i + 1..]
  {
    hide InOrder, Before, After;
    Split(p, t, i);
    var a, b, c, d := Before(p), InOrder(t.left), InOrder(t.right), After(p);
    assert a + b + c + d == (a + b) + (c + d);
  }

  lemma LeafNode(n: Node)
    ensures RedLeaf(n).Fork? && RedLeaf(n).node == n
  {}

  /** A search ends at a leaf, between the first k nodes and the rest. */
  lemma LeafAt(p: Path, n: Node, s: seq<Node>, k: nat)
    requires RedBlack(Plug(p, Leaf)) && s == InOrder(Plug(p, Leaf)) && |Before(p)| <= k <= |Before(p) + InOrder(Leaf)|
    ensures k <= |s| && InOrder(Plug(p, RedLeaf(n))) == s[..k] + [n] + s[k..]
    ensures Hot(p, RedLeaf(n), 0)
  {
    PlugFits(p, Leaf);
    InOrderPlug(p, Leaf);
    InOrderPlug(p, RedLeaf(n));
    assert s[..k] == Before(p) && s[k..] == After(p);
  }
}
