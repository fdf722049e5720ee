/** The hierarchy of chunks in memory, and the list surgery every operation is made of. */
module TallocLinks {
  import opened TallocChunk
  import opened TallocShape
  import opened TallocHeap

  /** The chunks that are allocated. */
  class Chunks {
    ghost var repr: set<Chunk>

    constructor ()
      ensures repr == {}
    {
      repr := {};
    }

    /** What the allocated chunks hold in memory. */
    ghost function Mem(): (m: Memory)
      reads this, repr`next, repr`prev, repr`parent, repr`child, repr`size
      ensures m.Keys == repr
    {
      map n | n in repr :: Links(n.next, n.prev, n.parent, n.child, n.size)
    }

    function Next(c: Chunk): (v: Chunk?)
      requires c in repr
      reads this, repr`next, repr`prev, repr`parent, repr`child, repr`size
      ensures v == Mem()[c].next
    {
      c.next
    }

    function Prev(c: Chunk): (v: Chunk?)
      requires c in repr
      reads this, repr`next, repr`prev, repr`parent, repr`child, repr`size
      ensures v == Mem()[c].prev
    {
      c.prev
    }

    function Parent(c: Chunk): (v: Chunk?)
      requires c in repr
      reads this, repr`next, repr`prev, repr`parent, repr`child, repr`size
      ensures v == Mem()[c].parent
    {
      c.parent
    }

    function Child(c: Chunk): (v: Chunk?)
      requires c in repr
      reads this, repr`next, repr`prev, repr`parent, repr`child, repr`size
      ensures v == Mem()[c].child
    {
      c.child
    }

    function Size(c: Chunk): (v: nat)
      requires c in repr
      reads this, repr`next, repr`prev, repr`parent, repr`child, repr`size
      ensures v == Mem()[c].size
    {
      c.size
    }

    method SetNext(c: Chunk, v: Chunk?)
      requires c in repr
      modifies c`next
      ensures Mem() == old(Mem())[c := old(Mem())[c].(next := v)]
    {
      c.next := v;
    }

    method SetPrev(c: Chunk, v: Chunk?)
      requires c in repr
      modifies c`prev
      ensures Mem() == old(Mem())[c := old(Mem())[c].(prev := v)]
    {
      c.prev := v;
    }

    method SetParent(c: Chunk, v: Chunk?)
      requires c in repr
      modifies c`parent
      ensures Mem() == old(Mem())[c := old(Mem())[c].(parent := v)]
    {
      c.parent := v;
    }

    method SetChild(c: Chunk, v: Chunk?)
      requires c in repr
      modifies c`child
      ensures Mem() == old(Mem())[c := old(Mem())[c].(child := v)]
    {
      c.child := v;
    }

    method SetSize(c: Chunk, v: nat)
      requires c in repr
      modifies c`size
      ensures Mem() == old(Mem())[c := old(Mem())[c].(size := v)]
    {
      c.size := v;
    }

    ghost method Drop(c: Chunk)
      modifies this
      ensures repr == old(repr) - {c} && Mem() == old(Mem()) - {c}
    {
      repr := repr - {c};
    }

    ghost method Enter(c: Chunk)
      modifies this
      ensures repr == old(repr) + {c}
      ensures Mem() == old(Mem())[c := Links(c.next, c.prev, c.parent, c.child, c.size)]
    {
      repr := repr + {c};
    }

    /** Shortens the owner's list by its first chunk. */
    method UnlinkFirst(tc: Chunk, parent: Chunk)
      requires tc in repr && Linkable(Mem(), tc) && Mem()[tc].parent == parent
      modifies repr`next, repr`prev, repr`parent, repr`child
      ensures Mem() == UnlinkingFirst(old(Mem()), tc)
    {
      hide Mem, UnlinkingFirst;
      FirstInSteps(Mem(), tc, parent);
      SetChild(parent, Next(tc));
      var child := Child(parent);
      if child != null {
        SetPrev(child, null);
      }
      SetNext(tc, null);
      SetPrev(tc, null);
      if child != null {
        SetParent(child, parent);
      }
    }

    /** Joins the neighbours of a chunk. */
    method UnlinkLater(tc: Chunk)
      requires tc in repr && Linkable(Mem(), tc) && Mem()[tc].parent == null
      modifies repr`next, repr`prev
      ensures Mem() == UnlinkingLater(old(Mem()), tc)
    {
      hide Mem;
      if Prev(tc) != null {
        SetNext(Prev(tc), Next(tc));
      }
      if Next(tc) != null {
        SetPrev(Next(tc), Prev(tc));
      }
    }

    /** Takes a chunk out of its list of siblings. */
    method Unlink(tc: Chunk, ghost p: Place, ghost s: Kin)
      requires HoldsAt(Mem(), p, s) && s.Some? && s.chunk == tc
      modifies repr`next, repr`prev, repr`parent, repr`child
      ensures TakenOut(old(Mem()), Mem(), p, s)
      ensures HoldsAt(Mem(), p, s.rest) && Holds(Mem(), s.kids, tc, null)
      ensures Kept(old(Mem()), Mem(), {tc} + PlaceNodes(p) + Nodes(s.rest))
    {
      hide Mem, HoldsAt, Holds, Nodes, PlaceNodes, TakenOut, UnlinkingFirst, UnlinkingLater, Linkable;
      ghost var m := Mem();
      UnlinkingTakesOut(m, p, s);
      var parent := Parent(tc);
      if parent != null {
        UnlinkFirst(tc, parent);
      } else {
        UnlinkLater(tc);
      }
      TakenOutHolds(m, Mem(), p, s);
    }

    /** A chunk gets another's links, and the neighbours turn to it. */
    method Replace(tc: Chunk, r: Chunk)
      requires tc in repr && r in repr && r != tc
      requires var m := Mem()[r := Mem()[tc].(size := Mem()[r].size)]; Linkable(m, r) && ChildApart(m, r)
      modifies repr`next, repr`prev, repr`parent, repr`child
      ensures Mem() == Retargeting(old(Mem())[r := old(Mem())[tc].(size := old(Mem())[r].size)], r)
    {
      hide Mem, Retargeting, Linkable, ChildApart;
      CopyLinks(tc, r);
      Retarget(r);
    }

    /** Makes a new chunk the first child of its owner. */
    method LinkNew(tc: Chunk, parent: Chunk)
      requires Puttable(Mem(), tc, parent)
      modifies repr`next, repr`prev, repr`parent, repr`child
      ensures Mem() == Putting(old(Mem()), tc, parent)
    {
      hide Mem, Putting;
      NewInSteps(Mem(), tc, parent);
      var first := Child(parent);
      if first != null {
        SetParent(first, null);
        SetNext(tc, first);
        SetPrev(first, tc);
      } else {
        SetNext(tc, null);
      }
      SetParent(tc, parent);
      SetPrev(tc, null);
      SetChild(parent, tc);
    }

    /** Makes a chunk that was taken out elsewhere the first child of its new owner. */
    method LinkMoved(tc: Chunk, parent: Chunk)
      requires Puttable(Mem(), tc, parent)
      modifies repr`next, repr`prev, repr`parent, repr`child
      ensures Mem() == Putting(old(Mem()), tc, parent)
    {
      hide Mem, Putting;
      MovedInSteps(Mem(), tc, parent);
      SetParent(tc, parent);
      var first := Child(parent);
      if first != null {
        SetParent(first, null);
        SetPrev(first, tc);
        SetNext(tc, first);
        SetPrev(tc, null);
        SetChild(parent, tc);
      } else {
        SetChild(parent, tc);
        SetNext(tc, null);
        SetPrev(tc, null);
      }
    }

    /** Gives a chunk a copy of the links of another. */
    method CopyLinks(tc: Chunk, r: Chunk)
      requires tc in repr && r in repr && r != tc
      modifies r`next, r`prev, r`parent, r`child
      ensures Mem() == old(Mem())[r := old(Mem())[tc].(size := old(Mem())[r].size)]
    {
      hide Mem;
      CopyInSteps(Mem(), tc, r);
      SetNext(r, Next(tc));
      SetPrev(r, Prev(tc));
      SetParent(r, Parent(tc));
      SetChild(r, Child(tc));
    }

    /** Turns the links of all neighbours to a chunk that holds a copy of another's header. */
    method Retarget(tc: Chunk)
      requires tc in repr && Linkable(Mem(), tc) && ChildApart(Mem(), tc)
      modifies repr`next, repr`prev, repr`parent, repr`child
      ensures Mem() == Retargeting(old(Mem()), tc)
    {
      hide Mem, Retargeting;
      RetargetInSteps(Mem(), tc);
      if Parent(tc) != null {
        SetChild(Parent(tc), tc);
      }
      if Child(tc) != null {
        SetParent(Child(tc), tc);
      }
      if Prev(tc) != null {
        SetNext(Prev(tc), tc);
      }
      if Next(tc) != null {
        SetPrev(Next(tc), tc);
      }
    }
  }

  /** The chunks around a chunk are allocated and differ. */
  ghost predicate Linkable(m: Memory, c: Chunk) {
    && c in m && m[c].parent != c && m[c].next != c && m[c].prev != c
    && (m[c].parent != null ==> m[c].parent in m)
    && (m[c].next != null ==> m[c].next in m && m[c].next != m[c].parent && m[c].next != m[c].prev)
    && (m[c].prev != null ==> m[c].prev in m)
  }

  ghost function UnlinkingFirst(m: Memory, c: Chunk): Memory
    requires Linkable(m, c) && m[c].parent != null
  {
    var next, parent := m[c].next, m[c].parent;
    var m1 := m[parent := m[parent].(child := next)][c := m[c].(next := null, prev := null)];
    if next == null then m1 else m1[next := m[next].(prev := null, parent := parent)]
  }

  /** The assignments one by one. */
  lemma FirstInSteps(m: Memory, c: Chunk, parent: Chunk)
    requires Linkable(m, c) && m[c].parent == parent
    ensures var next := m[c].next;
      var m1 := m[parent := m[parent].(child := next)];
      var m2 := if next == null then m1 else m1[next := m1[next].(prev := null)];
      var m3 := m2[c := m2[c].(next := null)];
      var m4 := m3[c := m3[c].(prev := null)];
      (if next == null then m4 else m4[next := m4[next].(parent := parent)]) == UnlinkingFirst(m, c)
  {}

  ghost function UnlinkingLater(m: Memory, c: Chunk): Memory
    requires Linkable(m, c)
  {
    var next, prev := m[c].next, m[c].prev;
    var m1 := if prev == null then m else m[prev := m[prev].(next := next)];
    if next == null then m1 else m1[next := m[next].(prev := prev)]
  }

  lemma UnlinkingTakesOut(m: Memory, p: Place, s: Kin)
    requires HoldsAt(m, p, s) && s.Some?
    ensures s.chunk in m && Linkable(m, s.chunk)
    ensures m[s.chunk].parent != null ==> TakenOut(m, UnlinkingFirst(m, s.chunk), p, s)
    ensures m[s.chunk].parent == null ==> TakenOut(m, UnlinkingLater(m, s.chunk), p, s)
  {
    hide HoldsAt, Holds, Nodes, PlaceNodes;
    Around0(m, p, s);
  }

  ghost predicate Puttable(m: Memory, c: Chunk, n: Chunk) {
    c in m && n in m && c != n && (m[n].child != null ==> m[n].child in m && m[n].child != c && m[n].child != n)
  }

  ghost function Putting(m: Memory, c: Chunk, n: Chunk): Memory
    requires Puttable(m, c, n)
  {
    var h := m[n].child;
    var m1 := m[c := m[c].(next := h, prev := null, parent := n)];
    var m2 := m1[n := m1[n].(child := c)];
    if h == null then m2 else m2[h := m2[h].(prev := c, parent := null)]
  }

  lemma NewInSteps(m: Memory, c: Chunk, n: Chunk)
    requires Puttable(m, c, n)
    ensures var h := m[n].child;
      var m1 := if h == null then m else m[h := m[h].(parent := null)];
      var m2 := m1[c := m1[c].(next := h)];
      var m3 := if h == null then m2 else m2[h := m2[h].(prev := c)];
      var m4 := m3[c := m3[c].(parent := n)];
      var m5 := m4[c := m4[c].(prev := null)];
      m5[n := m5[n].(child := c)] == Putting(m, c, n)
  {}

  lemma MovedInSteps(m: Memory, c: Chunk, n: Chunk)
    requires Puttable(m, c, n)
    ensures var h := m[n].child;
      var m1 := m[c := m[c].(parent := n)];
      var m2 := if h == null then m1[n := m1[n].(child := c)] else m1[h := m1[h].(parent := null)];
      var m3 := if h == null then m2 else m2[h := m2[h].(prev := c)];
      var m4 := m3[c := m3[c].(next := h)];
      var m5 := m4[c := m4[c].(prev := null)];
      (if h == null then m5 else m5[n := m5[n].(child := c)]) == Putting(m, c, n)
  {}

  lemma PuttingPutsIn(m: Memory, p: Place, s: Kin, c: Chunk)
    requires HoldsAt(m, p, s) && Owner(p) != null && !p.Beside? && c in m && c !in PlaceNodes(p) && c !in Nodes(s)
    ensures Puttable(m, c, Owner(p)) && PutIn(m, Putting(m, c, Owner(p)), p, s, c)
  {
    hide HoldsAt, Holds, PlaceNodes;
    Around0(m, p, s);
  }

  /** A copy of the links, one by one. */
  lemma CopyInSteps(m: Memory, c: Chunk, d: Chunk)
    requires c in m && d in m && c != d
    ensures var m1 := m[d := m[d].(next := m[c].next)];
      var m2 := m1[d := m1[d].(prev := m1[c].prev)];
      var m3 := m2[d := m2[d].(parent := m2[c].parent)];
      m3[d := m3[d].(child := m3[c].child)] == m[d := m[c].(size := m[d].size)]
  {}

  ghost predicate ChildApart(m: Memory, c: Chunk)
    requires Linkable(m, c)
  {
    var k := m[c].child;
    k != null ==> k in m && k != c && k != m[c].next && k != m[c].prev && k != m[c].parent
  }

  ghost function Retargeting(m: Memory, c: Chunk): Memory
    requires Linkable(m, c) && ChildApart(m, c)
  {
    var l := m[c];
    var m2 := if l.parent == null then m else m[l.parent := m[l.parent].(child := c)];
    var m3 := if l.prev == null then m2 else m2[l.prev := m2[l.prev].(next := c)];
    var m4 := if l.child == null then m3 else m3[l.child := m3[l.child].(parent := c)];
    if l.next == null then m4 else m4[l.next := m4[l.next].(prev := c)]
  }

  lemma RetargetInSteps(m: Memory, c: Chunk)
    requires Linkable(m, c) && ChildApart(m, c)
    ensures var l := m[c];
      var m1 := if l.parent == null then m else m[l.parent := m[l.parent].(child := c)];
      var m2 := if l.child == null then m1 else m1[l.child := m1[l.child].(parent := c)];
      var m3 := if l.prev == null then m2 else m2[l.prev := m2[l.prev].(next := c)];
      (if l.next == null then m3 else m3[l.next := m3[l.next].(prev := c)]) == Retargeting(m, c)
  {}

  /** A new chunk with a copy of another's header takes its place. */
  lemma RetargetingReplaces(m: Memory, p: Place, s: Kin, d: Chunk, size: nat)
    requires HoldsAt(m, p, s) && s.Some? && d !in m && d !in PlaceNodes(p) && d !in Nodes(s)
    ensures s.chunk in m
    ensures var m1 := m[d := m[s.chunk].(size := size)];
      && Linkable(m1, d) && ChildApart(m1, d) && HoldsAt(m1, p, s)
      && Replacing(m1, Retargeting(m1, d), p, s, d, size)
  {
    hide HoldsAt, Holds, Nodes, PlaceNodes, HoldsPlace;
    Around0(m, p, s);
    EnterElsewhere(m, p, s, d, m[s.chunk].(size := size));
  }

  lemma EnterElsewhere(m: Memory, p: Place, s: Kin, d: Chunk, l: Links)
    requires HoldsAt(m, p, s) && d !in PlaceNodes(p) && d !in Nodes(s)
    ensures HoldsAt(m[d := l], p, s)
  {
    HoldsSame(m, m[d := l], s, Owner(p), TallocShape.Prev(p));
    HoldsPlaceSame(m, m[d := l], p, Head(s));
  }

  lemma DropElsewhere(m: Memory, p: Place, s: Kin, d: Chunk)
    requires HoldsAt(m, p, s) && d !in PlaceNodes(p) && d !in Nodes(s)
    ensures HoldsAt(m - {d}, p, s)
  {
    HoldsSame(m, m - {d}, s, Owner(p), TallocShape.Prev(p));
    HoldsPlaceSame(m, m - {d}, p, Head(s));
  }
}
