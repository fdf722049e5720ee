/** From places in the hierarchy to the whole of it: what the list surgery at a place amounts to. */
module TallocWhole {
  import opened TallocChunk
  import opened TallocShape
  import opened TallocHeap
  import opened TallocLinks
  import opened TallocSpec
  import opened TallocPool

  ghost function One(s: Kin): Kin
    requires s.Some?
  {
    s.(rest := None)
  }

  /** How many chunks there are. */
  ghost function Rank(s: Kin): nat {
    if s.None? then 0 else 1 + Rank(s.kids) + Rank(s.rest)
  }

  // ---------------------------------------------------------------- facts for the recursion

  lemma HereFacts(m: Memory, p: Place, s: Kin)
    requires HoldsAt(m, p, s)
    ensures s.Some? ==>
      && s.chunk in m && Nodes(One(s)) == {s.chunk} + Nodes(s.kids)
      && Nodes(s) == Nodes(One(s)) + Nodes(s.rest)
    ensures s.Some? ==> Nodes(One(s)) !! Nodes(s.rest) + PlaceNodes(p) && s.chunk !in Nodes(s.kids)
    ensures s.Some? ==> Rank(s) == 1 + Rank(s.kids) + Rank(s.rest)
    ensures p.Loose? ==>
      && p.chunk in m && m[p.chunk].child == Head(s) && PlaceNodes(p) == {p.chunk}
      && p.chunk !in Nodes(s)
    ensures Nodes(s) <= m.Keys
  {
    HeldNodes(m, s, Owner(p), TallocShape.Prev(p));
    if s.Some? { assert Nodes(One(s)) == {s.chunk} + Nodes(s.kids) + Nodes(None); }
  }

  lemma {:induction false} HeldNodes(m: Memory, s: Kin, owner: Chunk?, prev: Chunk?)
    requires Holds(m, s, owner, prev)
    ensures Nodes(s) <= m.Keys
  {
    if s.Some? {
      HeldNodes(m, s.kids, s.chunk, null);
      HeldNodes(m, s.rest, owner, Behind(owner, s.chunk));
    }
  }

  /** The chunk that was taken out still has its children. */
  lemma LooseHolds(m: Memory, m': Memory, p: Place, s: Kin)
    requires HoldsAt(m, p, s) && s.Some? && TakenOut(m, m', p, s) && Holds(m', s.kids, s.chunk, null)
    requires Kept(m, m', {s.chunk} + PlaceNodes(p) + Nodes(s.rest))
    ensures HoldsAt(m', Loose(s.chunk), s.kids) && s.chunk in m' && m'[s.chunk].child == Head(s.kids)
    ensures m'[s.chunk].size == s.size && Kept(m, m', Nodes(s) + PlaceNodes(p))
  {
    hide Distinct;
    ApartHere(p, s);
  }

  /** After one more child was freed. */
  lemma OneLess(m: Memory, m1: Memory, m2: Memory, p: Place, s: Kin, k: Kin)
    requires s.Some? && k.Some? && HoldsAt(m, p, s) && HoldsAt(m1, p, s.rest) && HoldsAt(m2, Loose(s.chunk), k.rest)
    requires Nodes(k) <= Nodes(s.kids) && Kept(m, m1, Nodes(s) + PlaceNodes(p))
    requires Kept(m1, m2, Nodes(k) + PlaceNodes(Loose(s.chunk)))
    ensures HoldsAt(m2, p, s.rest) && Kept(m, m2, Nodes(s) + PlaceNodes(p))
    ensures s.chunk in m2 && m2[s.chunk].child == Head(k.rest) && Nodes(k.rest) <= Nodes(s.kids)
  {
    hide Distinct, PlaceDistinct, HoldsPlace;
    HereFacts(m, p, s);
    HereFacts(m2, Loose(s.chunk), k.rest);
    KeptHolds(m1, m2, p, s.rest, Nodes(k) + {s.chunk});
    KeptTwice(m, m1, m2, Nodes(k) + {s.chunk}, Nodes(s) + PlaceNodes(p));
  }

  lemma KeptHolds(m: Memory, m': Memory, p: Place, s: Kin, changed: set<Chunk>)
    requires HoldsAt(m, p, s) && Kept(m, m', changed) && changed !! Nodes(s) + PlaceNodes(p)
    ensures HoldsAt(m', p, s)
  {
    HoldsSame(m, m', s, Owner(p), TallocShape.Prev(p));
    HoldsPlaceSame(m, m', p, Head(s));
  }

  lemma KeptTwice(m: Memory, m1: Memory, m2: Memory, less: set<Chunk>, changed: set<Chunk>)
    requires Kept(m, m1, changed) && Kept(m1, m2, less) && less <= changed
    ensures Kept(m, m2, changed)
  {}

  lemma KeptLess(m: Memory, m': Memory, changed: set<Chunk>, c: Chunk)
    requires Kept(m, m', changed)
    ensures c in changed ==> Kept(m, m' - {c}, changed)
  {}

  lemma Gone(k: Kin)
    requires k.None?
    ensures Nodes(k) == {}
  {}

  // ---------------------------------------------------------------- from places to the whole hierarchy

  /** The place of a chunk in memory. */
  lemma At(m: Memory, w: Kin, c: Chunk) returns (p: Place, s: Kin)
    requires HoldsAt(m, Roots, w) && c in Nodes(w)
    ensures HoldsAt(m, p, s) && s.Some? && s.chunk == c && Plug(p, s) == w && Outermost(p) == Roots
    ensures Nodes(One(s)) <= Nodes(w) == Nodes(s) + PlaceNodes(p) && Distinct(w)
  {
    hide HoldsAt, Distinct;
    p, s := Locate(Roots, w, c);
    HoldsPlug(m, p, s);
    HereFacts(m, p, s);
    WholeDistinct(m, w);
  }

  lemma WholeDistinct(m: Memory, w: Kin)
    requires HoldsAt(m, Roots, w)
    ensures Distinct(w)
  {}

  /** After a free at some place. */
  lemma PrunedHolds(m: Memory, w: Kin, p: Place, s: Kin)
    requires Plug(p, s) == w && Outermost(p) == Roots && s.Some? && Distinct(w) && HoldsAt(m, p, s.rest)
    ensures HoldsAt(m, Roots, Pruned(w, s.chunk))
    ensures Nodes(Pruned(w, s.chunk)) == Nodes(w) - Nodes(One(s))
  {
    hide HoldsAt, Distinct;
    PlacedDistinct(m, w, p, s);
    AtPlace(p, s, s.chunk, s, s.chunk, 0);
    HoldsPlug(m, p, s.rest);
    SubtreeNodes(w, s.chunk);
  }

  lemma PlacedDistinct(m: Memory, w: Kin, p: Place, s: Kin)
    requires Plug(p, s) == w && Outermost(p) == Roots && Distinct(w)
    ensures AllDistinct(p, s) && Nodes(w) == Nodes(s) + PlaceNodes(p)
  {
    HoldsPlug(m, p, s);
  }

  /** The place of the children of a chunk. */
  lemma BelowHere(m: Memory, p: Place, s: Kin)
    requires HoldsAt(m, p, s) && s.Some?
    ensures HoldsAt(m, Below(s.chunk, s.size, s.rest, p), s.kids)
    ensures Nodes(s.kids) + PlaceNodes(Below(s.chunk, s.size, s.rest, p)) == Nodes(s) + PlaceNodes(p)
  {
    StepUp(m, Below(s.chunk, s.size, s.rest, p), s.kids);
  }

  lemma BelowHolds(m: Memory, q: Place, k: Kin)
    requires HoldsAt(m, q, k) && q.Below?
    ensures q.chunk in m && m[q.chunk].child == Head(k) && q.chunk in PlaceNodes(q)
  {}

  /** After all children of a chunk were freed. */
  lemma ChildlessHolds(m: Memory, w: Kin, p: Place, s: Kin)
    requires Plug(p, s) == w && Outermost(p) == Roots && s.Some? && Distinct(w)
    requires HoldsAt(m, Below(s.chunk, s.size, s.rest, p), None)
    ensures HoldsAt(m, Roots, Childless(w, s.chunk))
    ensures Nodes(Childless(w, s.chunk)) == PlaceNodes(Below(s.chunk, s.size, s.rest, p))
  {
    hide HoldsAt, Distinct, AllDistinct, Nodes, PlaceNodes, Plug;
    var q, s' := Below(s.chunk, s.size, s.rest, p), Some(s.chunk, s.size, None, s.rest);
    PlacedDistinct(m, w, p, s);
    HasHead(s);
    AtPlace(p, s, s.chunk, s, s.chunk, 0);
    StepUp(m, q, None);
    HoldsPlug(m, p, s');
    Gone(None);
    NoSurroundings();
  }

  lemma NoSurroundings()
    ensures PlaceNodes(Roots) == {}
  {}

  lemma HasHead(s: Kin)
    requires s.Some?
    ensures s.chunk in Nodes(s)
  {}

  lemma PoolHere(d: Data, live: set<Chunk>, held: set<Chunk>, c: Chunk)
    requires PoolsOk(d, live, held) && c in live && c in d && d[c].isPool
    ensures c in held && d[c].count == |d[c].members| + 1
  {
    assert ChunkOk(d, live, held, c) && PoolOk(d, live, c);
  }

  // ---------------------------------------------------------------- walking and moving

  lemma FirstHere(m: Memory, p: Place, s: Kin)
    requires HoldsAt(m, p, s) && s.Some?
    ensures s.chunk in m && m[s.chunk].size == s.size && m[s.chunk].child == Head(s.kids)
    ensures Owner(p) != null ==> m[s.chunk].next == Head(s.rest)
    ensures m[s.chunk].parent == if Prev(p) == null then Owner(p) else null
  {}

  /** One sibling further. */
  lemma NextHere(m: Memory, p: Place, s: Kin)
    requires HoldsAt(m, p, s) && s.Some?
    ensures HoldsAt(m, Beside(s.chunk, s.size, s.kids, p), s.rest)
    ensures Owner(Beside(s.chunk, s.size, s.kids, p)) == Owner(p)
    ensures Nodes(s.rest) <= Nodes(s)
  {
    StepUp(m, Beside(s.chunk, s.size, s.kids, p), s.rest);
  }

  lemma OneIs(s: Kin)
    requires s.Some?
    ensures One(s) == Some(s.chunk, s.size, s.kids, None) && s.chunk in Nodes(One(s))
  {}

  lemma OneTotal(s: Kin)
    requires s.Some?
    ensures Total(One(s)) == s.size + Total(s.kids) && Total(s) == Total(One(s)) + Total(s.rest)
  {
    assert Total(One(s)) == s.size + Total(s.kids) + Total(None);
  }

  lemma NoTotal(k: Kin)
    requires k.None?
    ensures Total(k) == 0
  {}

  lemma SubtreeHere(m: Memory, w: Kin, p: Place, s: Kin)
    requires HoldsAt(m, p, s) && s.Some? && Plug(p, s) == w
    ensures Subtree(w, s.chunk) == One(s)
  {
    hide Distinct, PlaceDistinct;
    HasHead(s);
    AtPlace(p, s, s.chunk, s, s.chunk, 0);
  }

  /** A chunk that was taken out stands alone once its links are cleared. */
  lemma FreestandingHolds(m: Memory, m': Memory, w: Kin, s: Kin)
    requires s.Some? && HoldsAt(m, Roots, Pruned(w, s.chunk)) && HoldsAt(m, Loose(s.chunk), s.kids)
    requires Distinct(w) && s.chunk in Nodes(w) && Subtree(w, s.chunk) == One(s)
    requires s.chunk in m && m' == m[s.chunk := Links(null, null, null, Head(s.kids), s.size)]
    ensures HoldsAt(m', Roots, Freestanding(w, s.chunk)) && Nodes(Freestanding(w, s.chunk)) == Nodes(w)
  {
    hide Distinct, PlaceDistinct;
    SubtreeNodes(w, s.chunk);
    HereFacts(m, Loose(s.chunk), s.kids);
    HoldsSame(m, m', Pruned(w, s.chunk), null, null);
    HoldsSame(m, m', s.kids, s.chunk, null);
    FreestandingNodes(w, s.chunk);
  }

  /** The chunk that gets another first child, by name. */
  lemma GraftReady(m: Memory, v: Kin, a: Chunk, c: Chunk)
    requires HoldsAt(m, Roots, v) && a in Nodes(v) && c in m && c !in Nodes(v)
    ensures Puttable(m, c, a)
  {
    hide HoldsAt, Nodes, PlaceNodes;
    var p, s := At(m, v, a);
    BelowHere(m, p, s);
    NotAround(p, s, c);
    PuttingPutsIn(m, Below(a, s.size, s.rest, p), s.kids, c);
  }

  lemma NotAround(p: Place, s: Kin, c: Chunk)
    requires s.Some? && c !in Nodes(s) + PlaceNodes(p)
    ensures c !in Nodes(s.kids) && c !in PlaceNodes(Below(s.chunk, s.size, s.rest, p))
  {}

  lemma GraftedHolds(m: Memory, v: Kin, a: Chunk, t: Kin)
    requires HoldsAt(m, Roots, v) && a in Nodes(v) && t.Some? && t.rest.None? && t.chunk in m && t.chunk !in Nodes(v)
    requires Puttable(m, t.chunk, a)
    requires m[t.chunk].child == Head(t.kids) && m[t.chunk].size == t.size && Holds(m, t.kids, t.chunk, null)
    requires Distinct(t) && Nodes(t) !! Nodes(v)
    ensures HoldsAt(Putting(m, t.chunk, a), Roots, Grafted(v, a, t))
    ensures Nodes(Grafted(v, a, t)) == Nodes(v) + Nodes(t)
  {
    hide HoldsAt, Holds, Nodes, PlaceNodes, Distinct, Puttable, Putting;
    var p, s := At(m, v, a);
    var q := Below(a, s.size, s.rest, p);
    BelowHere(m, p, s);
    NotAround(p, s, t.chunk);
    PuttingPutsIn(m, q, s.kids, t.chunk);
    var m' := Putting(m, t.chunk, a);
    PutInHolds(m, m', q, s.kids, t);
    StepUp(m', q, t.(rest := s.kids));
    HoldsPlug(m', p, Some(a, s.size, t.(rest := s.kids), s.rest));
    PlacedDistinct(m, v, p, s);
    HasHead(s);
    AtPlace(p, s, a, t, a, 0);
    GraftedNodes(v, a, t);
  }

  /** Moving the first child of a chunk to that chunk changes nothing. */
  lemma FirstChildStays(m: Memory, w: Kin, p: Place, s: Kin, a: Chunk)
    requires HoldsAt(m, p, s) && s.Some? && Plug(p, s) == w && Outermost(p) == Roots && Distinct(w)
    requires s.chunk in m && m[s.chunk].parent == a && s.chunk in Nodes(w)
    ensures Moved(w, s.chunk, a) == w
  {
    hide HoldsAt, Distinct;
    FirstHere(m, p, s);
    assert p.Below? && p.chunk == a;
    SubtreeHere(m, w, p, s);
    PlacedDistinct(m, w, p, s);
    AtPlace(p, s, s.chunk, s, s.chunk, 0);
    var u := Around(p, s.rest);
    StepUp(m, p, s);
    LessDistinct(p, s);
    HasHead(u);
    AtPlace(p.up, u, a, One(s), a, 0);
  }

  lemma LessDistinct(p: Place, s: Kin)
    requires p.Below? && s.Some? && AllDistinct(p, s)
    ensures AllDistinct(p.up, Around(p, s.rest))
  {}

  // ---------------------------------------------------------------- new and replaced chunks

  /** A new chunk, not linked yet, disturbs nothing. */
  lemma NewHolds(m: Memory, w: Kin, c: Chunk, size: nat)
    requires HoldsAt(m, Roots, w) && c !in Nodes(w)
    ensures HoldsAt(m[c := Links(null, null, null, null, size)], Roots, w)
    ensures HoldsAt(m[c := Links(null, null, null, null, size)], Roots, Added(w, null, c, size))
    ensures Nodes(Added(w, null, c, size)) == Nodes(w) + {c}
  {
    EnterElsewhere(m, Roots, w, c, Links(null, null, null, null, size));
    Gone(None);
  }

  lemma AddedHolds(m: Memory, w: Kin, a: Chunk, c: Chunk, size: nat)
    requires HoldsAt(m, Roots, w) && c !in Nodes(w) && a in Nodes(w) && c in m
    requires m[c] == Links(null, null, null, null, size)
    ensures Puttable(m, c, a) && HoldsAt(Putting(m, c, a), Roots, Added(w, a, c, size))
    ensures Nodes(Added(w, a, c, size)) == Nodes(w) + {c}
  {
    hide HoldsAt;
    var t := Some(c, size, None, None);
    GraftReady(m, w, a, c);
    assert Nodes(t) == {c} + Nodes(None) + Nodes(None);
    GraftedHolds(m, w, a, t);
  }

  /** A chunk gets another size where it is. */
  lemma ResizedHolds(m: Memory, w: Kin, c: Chunk, size: nat)
    requires HoldsAt(m, Roots, w) && c in Nodes(w)
    ensures c in m && HoldsAt(m[c := m[c].(size := size)], Roots, Swapped(w, c, c, size))
    ensures Nodes(Swapped(w, c, c, size)) == Nodes(w)
  {
    hide HoldsAt, Distinct;
    var p, s := At(m, w, c);
    FirstHere(m, p, s);
    var m', s' := m[c := m[c].(size := size)], Some(c, size, s.kids, s.rest);
    ResizedHere(m, p, s, size);
    HoldsPlug(m', p, s');
    PlacedDistinct(m, w, p, s);
    HasHead(s);
    AtPlace(p, s, c, s, c, size);
  }

  lemma ResizedHere(m: Memory, p: Place, s: Kin, size: nat)
    requires HoldsAt(m, p, s) && s.Some?
    ensures s.chunk in m && HoldsAt(m[s.chunk := m[s.chunk].(size := size)], p, Some(s.chunk, size, s.kids, s.rest))
    ensures Nodes(Some(s.chunk, size, s.kids, s.rest)) == Nodes(s)
  {
    hide PlaceDistinct;
    var m' := m[s.chunk := m[s.chunk].(size := size)];
    ApartHere(p, s);
    HoldsSame(m, m', s.kids, s.chunk, null);
    HoldsSame(m, m', s.rest, Owner(p), Behind(Owner(p), s.chunk));
    HoldsPlaceSame(m, m', p, s.chunk);
  }

  /** A chunk is replaced by another that got a copy of its links, and goes. */
  lemma SwappedHolds(m: Memory, w: Kin, p: Place, s: Kin, d: Chunk, size: nat)
    requires HoldsAt(m, p, s) && s.Some? && Plug(p, s) == w && Outermost(p) == Roots && Distinct(w)
    requires d !in m && d !in Nodes(w) && s.chunk in Nodes(w)
    ensures s.chunk in m
    ensures var m1 := m[d := m[s.chunk].(size := size)];
      && Linkable(m1, d) && ChildApart(m1, d)
      && HoldsAt(Retargeting(m1, d) - {s.chunk}, Roots, Swapped(w, s.chunk, d, size))
    ensures Nodes(Swapped(w, s.chunk, d, size)) == Nodes(w) - {s.chunk} + {d}
  {
    hide HoldsAt, Distinct, Nodes, PlaceNodes, Linkable, ChildApart, Retargeting, Replacing, Plug, AllDistinct;
    PlacedDistinct(m, w, p, s);
    RetargetingReplaces(m, p, s, d, size);
    var m1, s' := m[d := m[s.chunk].(size := size)], Some(d, size, s.kids, s.rest);
    var m2 := Retargeting(m1, d);
    ReplacingHolds(m1, m2, p, s, d, size);
    SwapNodes(m, p, s, d, size);
    DropElsewhere(m2, p, s', s.chunk);
    HoldsPlug(m2 - {s.chunk}, p, s');
    HasHead(s);
    AtPlace(p, s, s.chunk, s, d, size);
    NoSurroundings();
  }

  lemma SwapNodes(m: Memory, p: Place, s: Kin, d: Chunk, size: nat)
    requires AllDistinct(p, s) && s.Some? && d !in Nodes(s) + PlaceNodes(p)
    ensures s.chunk !in Nodes(Some(d, size, s.kids, s.rest)) && s.chunk !in PlaceNodes(p)
    ensures Nodes(Some(d, size, s.kids, s.rest)) + PlaceNodes(p) == Nodes(s) + PlaceNodes(p) - {s.chunk} + {d}
    ensures Swapped(s, s.chunk, d, size) == Some(d, size, s.kids, s.rest)
  {}

  /** Links go both ways, and only the first of a list of siblings knows its parent. */
  ghost predicate LinkedBothWays(m: Memory, c: Chunk) {
    && c in m
    && (m[c].next != null ==> m[c].next in m && m[m[c].next].prev == c)
    && (m[c].prev != null ==> m[c].prev in m && m[m[c].prev].next == c && m[c].parent == null)
    && (m[c].child != null ==> m[c].child in m && m[m[c].child].parent == c && m[m[c].child].prev == null)
    && (m[c].parent != null ==> m[c].parent in m && m[m[c].parent].child == c)
  }

  lemma AllLinkedBothWays(m: Memory, w: Kin, c: Chunk)
    requires HoldsAt(m, Roots, w) && c in Nodes(w)
    ensures LinkedBothWays(m, c)
  {
    hide HoldsAt, Nodes, PlaceNodes;
    var p, s := At(m, w, c);
    Around0(m, p, s);
    if s.kids.Some? { KidsFirst(m, p, s); }
  }

  lemma KidsFirst(m: Memory, p: Place, s: Kin)
    requires HoldsAt(m, p, s) && s.Some? && s.kids.Some?
    ensures s.kids.chunk in m && m[s.kids.chunk].prev == null
  {
    assert Holds(m, s.kids, s.chunk, null);
  }
}
