/** What allocating, freeing and stealing do to the hierarchy, and to the sizes it reports. */
module TallocSpec {
  import opened TallocChunk
  import opened TallocShape

  /** Without a chunk and everything below it. */
  ghost function Pruned(w: Kin, c: Chunk): Kin {
    if w.None? then None
    else if w.chunk == c then w.rest
    else Some(w.chunk, w.size, Pruned(w.kids, c), Pruned(w.rest, c))
  }

  /** A chunk with everything below it. */
  ghost function Subtree(w: Kin, c: Chunk): Kin {
    if w.None? then None
    else if w.chunk == c then Some(c, w.size, w.kids, None)
    else if c in Nodes(w.kids) then Subtree(w.kids, c)
    else Subtree(w.rest, c)
  }

  /** A tree put in as the first child of a chunk. */
  ghost function Grafted(w: Kin, a: Chunk, t: Kin): Kin
    requires t.Some?
  {
    if w.None? then None
    else if w.chunk == a then Some(a, w.size, t.(rest := w.kids), w.rest)
    else Some(w.chunk, w.size, Grafted(w.kids, a, t), Grafted(w.rest, a, t))
  }

  /** Another chunk, of another size, in the place of one. */
  ghost function Swapped(w: Kin, c: Chunk, d: Chunk, size: nat): Kin {
    if w.None? then None
    else if w.chunk == c then Some(d, size, w.kids, w.rest)
    else Some(w.chunk, w.size, Swapped(w.kids, c, d, size), Swapped(w.rest, c, d, size))
  }

  /** A new chunk under an owner, or under none. */
  ghost function Added(w: Kin, a: Chunk?, c: Chunk, size: nat): Kin {
    if a == null then Some(c, size, None, w) else Grafted(w, a, Some(c, size, None, None))
  }

  /** A chunk without what was below it. */
  ghost function Childless(w: Kin, c: Chunk): Kin {
    if w.None? then None
    else if w.chunk == c then w.(kids := None)
    else Some(w.chunk, w.size, Childless(w.kids, c), Childless(w.rest, c))
  }

  // ---------------------------------------------------------------- places

  /** Every chunk of a hierarchy is at some place. */
  lemma {:induction false} Locate(p: Place, s: Kin, c: Chunk) returns (q: Place, t: Kin)
    requires c in Nodes(s)
    ensures Plug(q, t) == Plug(p, s) && Outermost(q) == Outermost(p) && t.Some? && t.chunk == c
    decreases s
  {
    if s.chunk == c {
      q, t := p, s;
    } else if c in Nodes(s.kids) {
      q, t := Locate(Below(s.chunk, s.size, s.rest, p), s.kids, c);
    } else {
      q, t := Locate(Beside(s.chunk, s.size, s.kids, p), s.rest, c);
    }
  }

  lemma {:induction false} AbsentKeeps(w: Kin, c: Chunk, t: Kin, d: Chunk, size: nat)
    requires c !in Nodes(w) && t.Some?
    ensures Pruned(w, c) == w && Grafted(w, c, t) == w && Swapped(w, c, d, size) == w && Childless(w, c) == w
  {
    if w.Some? {
      AbsentKeeps(w.kids, c, t, d, size);
      AbsentKeeps(w.rest, c, t, d, size);
    }
  }

  /** What happens to a chunk happens at its place. */
  lemma {:induction false} AtPlace(p: Place, s: Kin, c: Chunk, t: Kin, d: Chunk, size: nat)
    requires AllDistinct(p, s) && c in Nodes(s) && t.Some?
    ensures Pruned(Plug(p, s), c) == Plug(p, Pruned(s, c))
    ensures Grafted(Plug(p, s), c, t) == Plug(p, Grafted(s, c, t))
    ensures Swapped(Plug(p, s), c, d, size) == Plug(p, Swapped(s, c, d, size))
    ensures Childless(Plug(p, s), c) == Plug(p, Childless(s, c))
    ensures Subtree(Plug(p, s), c) == Subtree(s, c)
    decreases p
  {
    hide Distinct, PlaceDistinct;
    match p
    case Roots =>
    case Loose(_) =>
    case Below(ch, sz, rest, up) =>
      StepUp(map[], p, s);
      NotInPlace(p, s, c);
      AbsentKeeps(rest, c, t, d, size);
      AtPlace(up, Around(p, s), c, t, d, size);
    case Beside(ch, sz, kids, up) =>
      StepUp(map[], p, s);
      NotInPlace(p, s, c);
      AbsentKeeps(kids, c, t, d, size);
      AtPlace(up, Around(p, s), c, t, d, size);
  }

  lemma NotInPlace(p: Place, s: Kin, c: Chunk)
    requires AllDistinct(p, s) && c in Nodes(s)
    ensures p.Below? ==> c != p.chunk && c !in Nodes(p.rest)
    ensures p.Beside? ==> c != p.chunk && c !in Nodes(p.kids)
  {}

  // ---------------------------------------------------------------- contents

  lemma {:induction false} SubtreeNodes(w: Kin, c: Chunk)
    requires Distinct(w) && c in Nodes(w)
    ensures Subtree(w, c).Some? && Subtree(w, c).chunk == c && Subtree(w, c).rest.None?
    ensures Nodes(Subtree(w, c)) <= Nodes(w) && Distinct(Subtree(w, c))
    ensures Nodes(Pruned(w, c)) == Nodes(w) - Nodes(Subtree(w, c)) && Distinct(Pruned(w, c))
  {
    if w.chunk == c {
    } else if c in Nodes(w.kids) {
      SubtreeNodes(w.kids, c);
      AbsentKeeps(w.rest, c, w, c, 0);
    } else {
      SubtreeNodes(w.rest, c);
      AbsentKeeps(w.kids, c, w, c, 0);
    }
  }

  lemma {:induction false} GraftedNodes(w: Kin, a: Chunk, t: Kin)
    requires Distinct(w) && a in Nodes(w) && t.Some? && t.rest.None? && Distinct(t) && Nodes(t) !! Nodes(w)
    ensures Nodes(Grafted(w, a, t)) == Nodes(w) + Nodes(t) && Distinct(Grafted(w, a, t))
  {
    if w.chunk == a {
    } else if a in Nodes(w.kids) {
      GraftedNodes(w.kids, a, t);
      AbsentKeeps(w.rest, a, t, a, 0);
    } else {
      GraftedNodes(w.rest, a, t);
      AbsentKeeps(w.kids, a, t, a, 0);
    }
  }

  // ---------------------------------------------------------------- sizes

  /** The sizes of all chunks of a list of siblings and below. */
  ghost function Total(w: Kin): nat {
    if w.None? then 0 else w.size + Total(w.kids) + Total(w.rest)
  }

  /** talloc_total_size: a chunk and everything below it. */
  ghost function SizeOf(w: Kin, a: Chunk): nat {
    Total(Subtree(w, a))
  }

  /** c is a or below a. */
  ghost predicate Under(w: Kin, c: Chunk, a: Chunk) {
    c in Nodes(Subtree(w, a))
  }

  /** Freeing lowers the total of every ancestor by the subtree's, and touches no other total. */
  lemma {:induction false} FreedTotals(w: Kin, c: Chunk, a: Chunk)
    requires Distinct(w) && c in Nodes(w) && a in Nodes(w) && !Under(w, a, c)
    ensures a in Nodes(Pruned(w, c))
    ensures SizeOf(w, a) == SizeOf(Pruned(w, c), a) + if Under(w, c, a) then SizeOf(w, c) else 0
    decreases w
  {
    SubtreeNodes(w, c);
    SubtreeNodes(w, a);
    if w.chunk == c {
      NotHere(w, a);
    } else if w.chunk == a {
      if c in Nodes(w.kids) {
        PrunedTotal(w.kids, c);
        AbsentKeeps(w.rest, c, w, c, 0);
      } else {
        AbsentKeeps(w.kids, c, w, c, 0);
      }
    } else {
      FreedBelow(w, c, a);
    }
  }

  lemma NotHere(w: Kin, a: Chunk)
    requires w.Some? && Distinct(w) && a in Nodes(w) && a != w.chunk && a !in Nodes(w.kids)
    ensures a in Nodes(w.rest) && Subtree(w, a) == Subtree(w.rest, a)
  {}

  lemma {:induction false} FreedBelow(w: Kin, c: Chunk, a: Chunk)
    requires Distinct(w) && c in Nodes(w) && a in Nodes(w) && !Under(w, a, c) && w.chunk != c && w.chunk != a
    ensures a in Nodes(Pruned(w, c))
    ensures SizeOf(w, a) == SizeOf(Pruned(w, c), a) + if Under(w, c, a) then SizeOf(w, c) else 0
    decreases w, 0
  {
    if c in Nodes(w.kids) {
      AbsentKeeps(w.rest, c, w, c, 0);
      SubtreeNodes(w.kids, c);
      if a in Nodes(w.kids) {
        FreedTotals(w.kids, c, a);
      } else {
        SubtreeNodes(w.rest, a);
      }
    } else {
      AbsentKeeps(w.kids, c, w, c, 0);
      SubtreeNodes(w.rest, c);
      if a in Nodes(w.kids) {
        SubtreeNodes(w.kids, a);
      } else {
        FreedTotals(w.rest, c, a);
      }
    }
  }

  lemma {:induction false} PrunedTotal(w: Kin, c: Chunk)
    requires Distinct(w) && c in Nodes(w)
    ensures Total(w) == Total(Pruned(w, c)) + SizeOf(w, c)
  {
    if w.chunk == c {
      assert Total(Subtree(w, c)) == w.size + Total(w.kids) + Total(None);
    } else if c in Nodes(w.kids) {
      PrunedTotal(w.kids, c);
      AbsentKeeps(w.rest, c, w, c, 0);
    } else {
      PrunedTotal(w.rest, c);
      AbsentKeeps(w.kids, c, w, c, 0);
    }
  }

  lemma {:induction false} GraftedTotal(w: Kin, a: Chunk, t: Kin)
    requires Distinct(w) && a in Nodes(w) && t.Some? && t.rest.None?
    ensures Total(Grafted(w, a, t)) == Total(w) + Total(t)
  {
    if w.chunk == a {
    } else if a in Nodes(w.kids) {
      GraftedTotal(w.kids, a, t);
      AbsentKeeps(w.rest, a, t, a, 0);
    } else {
      GraftedTotal(w.rest, a, t);
      AbsentKeeps(w.kids, a, t, a, 0);
    }
  }

  /** What a steal to another owner makes of the hierarchy. */
  ghost function Moved(w: Kin, c: Chunk, a: Chunk): Kin
    requires Distinct(w) && c in Nodes(w)
  {
    SubtreeNodes(w, c);
    Grafted(Pruned(w, c), a, Subtree(w, c))
  }

  /** What a steal to no owner makes of the hierarchy. */
  ghost function Freestanding(w: Kin, c: Chunk): Kin
    requires Distinct(w) && c in Nodes(w)
  {
    SubtreeNodes(w, c);
    Subtree(w, c).(rest := Pruned(w, c))
  }

  lemma FreestandingNodes(w: Kin, c: Chunk)
    requires Distinct(w) && c in Nodes(w)
    ensures Nodes(Freestanding(w, c)) == Nodes(w) && Distinct(Freestanding(w, c))
    ensures Total(Freestanding(w, c)) == Total(w)
  {
    hide Pruned, Subtree, Distinct;
    SubtreeNodes(w, c);
    PrunedTotal(w, c);
    Joined(Subtree(w, c), Pruned(w, c));
  }

  lemma Joined(t: Kin, v: Kin)
    requires t.Some? && t.rest.None?
    ensures Total(t.(rest := v)) == Total(t) + Total(v) && Nodes(t.(rest := v)) == Nodes(t) + Nodes(v)
    ensures Distinct(t) && Distinct(v) && Nodes(t) !! Nodes(v) ==> Distinct(t.(rest := v))
  {
    assert Total(t) == t.size + Total(t.kids) + Total(None);
  }

  /** Stealing loses nothing, and what was moved is under its new owner, as it was. */
  lemma MovedKeeps(w: Kin, c: Chunk, a: Chunk)
    requires Distinct(w) && c in Nodes(w) && a in Nodes(w) && !Under(w, a, c)
    ensures Distinct(Moved(w, c, a)) && Nodes(Moved(w, c, a)) == Nodes(w) && Total(Moved(w, c, a)) == Total(w)
    ensures Under(Moved(w, c, a), c, a) && Subtree(Moved(w, c, a), c) == Subtree(w, c)
  {
    SubtreeNodes(w, c);
    var v, t := Pruned(w, c), Subtree(w, c);
    GraftedNodes(v, a, t);
    PrunedTotal(w, c);
    GraftedTotal(v, a, t);
    GraftFound(v, a, t);
  }

  lemma {:induction false} GraftFound(w: Kin, a: Chunk, t: Kin)
    requires Distinct(w) && a in Nodes(w) && t.Some? && t.rest.None? && Distinct(t) && Nodes(t) !! Nodes(w)
    ensures Subtree(Grafted(w, a, t), t.chunk) == t
    ensures t.chunk in Nodes(Subtree(Grafted(w, a, t), a))
  {
    if w.chunk == a {
    } else if a in Nodes(w.kids) {
      GraftFound(w.kids, a, t);
      GraftedNodes(w.kids, a, t);
      AbsentKeeps(w.rest, a, t, a, 0);
    } else {
      GraftFound(w.rest, a, t);
      GraftedNodes(w.rest, a, t);
      AbsentKeeps(w.kids, a, t, a, 0);
    }
  }

  /** Freeing the new owner frees what was moved to it. */
  lemma MovedGoesWithOwner(w: Kin, c: Chunk, a: Chunk)
    requires Distinct(w) && c in Nodes(w) && a in Nodes(w) && !Under(w, a, c)
    ensures Nodes(Subtree(w, c)) !! Nodes(Pruned(Moved(w, c, a), a))
    ensures Nodes(Pruned(Moved(w, c, a), a)) == Nodes(Pruned(Pruned(w, c), a))
  {
    SubtreeNodes(w, c);
    var v, t := Pruned(w, c), Subtree(w, c);
    GraftThenPrune(v, a, t);
    SubtreeNodes(v, a);
  }

  lemma {:induction false} GraftThenPrune(w: Kin, a: Chunk, t: Kin)
    requires Distinct(w) && a in Nodes(w) && t.Some?
    ensures Pruned(Grafted(w, a, t), a) == Pruned(w, a)
  {
    if w.chunk == a {
    } else if a in Nodes(w.kids) {
      GraftThenPrune(w.kids, a, t);
      AbsentKeeps(w.rest, a, t, a, 0);
    } else {
      GraftThenPrune(w.rest, a, t);
      AbsentKeeps(w.kids, a, t, a, 0);
    }
  }

  /** A new chunk can be freed again without a trace. */
  lemma {:induction false} FreeUndoesAlloc(w: Kin, a: Chunk, c: Chunk, size: nat)
    requires c !in Nodes(w)
    ensures Pruned(Grafted(w, a, Some(c, size, None, None)), c) == w
  {
    if w.Some? {
      FreeUndoesAlloc(w.kids, a, c, size);
      FreeUndoesAlloc(w.rest, a, c, size);
      AbsentKeeps(w.kids, c, w, c, 0);
      AbsentKeeps(w.rest, c, w, c, 0);
    }
  }

  /** A new chunk adds its size to the total, and comes first among its owner's children, or first of all. */
  lemma AddedFirst(w: Kin, a: Chunk?, c: Chunk, size: nat)
    requires Distinct(w) && c !in Nodes(w) && (a != null ==> a in Nodes(w))
    ensures Total(Added(w, a, c, size)) == Total(w) + size
    ensures a == null ==>
      && Added(w, a, c, size).Some? && Added(w, a, c, size).chunk == c
      && Added(w, a, c, size).rest == w
    ensures a != null ==>
      && Subtree(w, a).Some?
      && Subtree(Added(w, a, c, size), a) == Subtree(w, a).(kids := Some(c, size, None, Subtree(w, a).kids))
  {
    if a != null {
      GraftedTotal(w, a, Some(c, size, None, None));
      GraftedKids(w, a, c, size);
    }
  }

  lemma {:induction false} GraftedKids(w: Kin, a: Chunk, c: Chunk, size: nat)
    requires Distinct(w) && c !in Nodes(w) && a in Nodes(w)
    ensures Subtree(w, a).Some?
    ensures Subtree(Grafted(w, a, Some(c, size, None, None)), a)
         == Subtree(w, a).(kids := Some(c, size, None, Subtree(w, a).kids))
  {
    var t := Some(c, size, None, None);
    if w.chunk == a {
    } else if a in Nodes(w.kids) {
      GraftedKids(w.kids, a, c, size);
      GraftedNodes(w.kids, a, t);
    } else {
      GraftedKids(w.rest, a, c, size);
      AbsentKeeps(w.kids, a, t, a, 0);
    }
  }

  /** A chunk of another size in the place of one changes the total by the difference. */
  lemma {:induction false} SwappedTotal(w: Kin, c: Chunk, d: Chunk, size: nat)
    requires Distinct(w) && c in Nodes(w)
    ensures Subtree(w, c).Some? && Total(Swapped(w, c, d, size)) + Subtree(w, c).size == Total(w) + size
  {
    if w.chunk == c {
    } else if c in Nodes(w.kids) {
      SwappedTotal(w.kids, c, d, size);
      AbsentKeeps(w.rest, c, w, d, size);
    } else {
      SwappedTotal(w.rest, c, d, size);
      AbsentKeeps(w.kids, c, w, d, size);
    }
  }
}
