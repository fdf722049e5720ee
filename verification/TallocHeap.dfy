/**
  The chunks in memory: taking a chunk out of its list of siblings, putting it in as the
  first child of another, putting another chunk in its place.
 */
module TallocHeap {
  import opened TallocChunk
  import opened TallocShape

  /** What is known around the first of the siblings at a place. */
  lemma Around0(m: Memory, p: Place, s: Kin)
    requires HoldsAt(m, p, s)
    ensures Holder(p) == if Owner(p) == null || Prev(p) == null then Owner(p) else Prev(p)
    ensures Owner(p) == null ==> Prev(p) == null
    ensures Holder(p) != null ==> Holder(p) in m && Holder(p) in PlaceNodes(p) && Holder(p) !in Nodes(s)
    ensures Holder(p) != null ==> m[Holder(p)] == Turned(p, m[Holder(p)], Head(s))
    ensures s.Some? ==> FirstFacts(m, p, s)
  {
    if s.Some? {
      assert Holds(m, s.kids, s.chunk, null) && Holds(m, s.rest, Owner(p), Behind(Owner(p), s.chunk));
    }
  }

  ghost predicate FirstFacts(m: Memory, p: Place, s: Kin)
    requires s.Some?
  {
    && s.chunk in m && m[s.chunk] == Linked(Owner(p), Prev(p), Head(s.rest), Head(s.kids), s.size)
    && s.chunk !in PlaceNodes(p) && s.chunk !in Nodes(s.kids) && s.chunk !in Nodes(s.rest)
    && (s.rest.Some? ==> s.rest.chunk in m && s.rest.chunk in Nodes(s.rest) && s.rest.chunk !in PlaceNodes(p))
    && (s.rest.Some? && Owner(p) != null ==> m[s.rest.chunk].prev == s.chunk && m[s.rest.chunk].parent == null)
    && (s.kids.Some? ==> s.kids.chunk in m && s.kids.chunk in Nodes(s.kids) && s.kids.chunk !in PlaceNodes(p))
    && (s.kids.Some? ==> s.kids.chunk !in Nodes(s.rest) && m[s.kids.chunk].parent == s.chunk)
  }

  /** Memory after the first of the siblings at a place was taken out; its own links to them do not matter. */
  ghost predicate TakenOut(m: Memory, m': Memory, p: Place, s: Kin)
    requires s.Some?
  {
    && m'.Keys == m.Keys && s.chunk in m && m'[s.chunk].child == m[s.chunk].child && m'[s.chunk].size == m[s.chunk].size
    && (Holder(p) != null ==> Holder(p) in m && m'[Holder(p)] == Turned(p, m[Holder(p)], Head(s.rest)))
    && (Owner(p) != null && s.rest.Some? ==>
      s.rest.chunk in m && m'[s.rest.chunk] == First(m[s.rest.chunk], Owner(p), Prev(p)))
    && Kept(m, m', {s.chunk} + Maybe(Holder(p)) + if Owner(p) == null then {} else Maybe(Head(s.rest)))
  }

  /** The links of a chunk that comes behind prev now, or first under the owner. */
  ghost function First(l: Links, owner: Chunk?, prev: Chunk?): Links {
    l.(prev := prev, parent := if prev == null then owner else null)
  }

  ghost function Maybe(c: Chunk?): set<Chunk> {
    if c == null then {} else {c}
  }

  /** Nothing outside a set of chunks changed. */
  ghost predicate Kept(m: Memory, m': Memory, changed: set<Chunk>) {
    forall n :: n in m && n !in changed ==> n in m' && m'[n] == m[n]
  }

  lemma TakenOutHolds(m: Memory, m': Memory, p: Place, s: Kin)
    requires HoldsAt(m, p, s) && s.Some? && TakenOut(m, m', p, s)
    ensures HoldsAt(m', p, s.rest) && Holds(m', s.kids, s.chunk, null)
    ensures Kept(m, m', {s.chunk} + PlaceNodes(p) + Nodes(s.rest))
  {
    hide PlaceDistinct, Distinct, HoldsPlace;
    Around0(m, p, s);
    ApartHere(p, s);
    Rehang(m, m', p, s.chunk, Head(s.rest));
    HoldsSame(m, m', s.kids, s.chunk, null);
    if Owner(p) == null {
      HoldsSame(m, m', s.rest, null, null);
    } else {
      Reheaded(m, m', s.rest, Owner(p), s.chunk, Prev(p));
    }
  }

  lemma ApartHere(p: Place, s: Kin)
    requires AllDistinct(p, s) && s.Some?
    ensures AllDistinct(p, s.rest) && Distinct(s.rest) && Distinct(s.kids) && PlaceDistinct(p)
    ensures s.chunk !in Nodes(s.kids) && s.chunk !in Nodes(s.rest) && s.chunk !in PlaceNodes(p)
    ensures Nodes(s.kids) !! Nodes(s.rest) && Nodes(s.kids) !! PlaceNodes(p) && Nodes(s.rest) !! PlaceNodes(p)
  {}

  /** Memory after chunk c, with its own children, became the first of the siblings at a place under an owner. */
  ghost predicate PutIn(m: Memory, m': Memory, p: Place, s: Kin, c: Chunk) {
    && m'.Keys == m.Keys && c in m && Owner(p) != null && Prev(p) == null
    && Owner(p) in m && m'[Owner(p)] == m[Owner(p)].(child := c)
    && m'[c] == Linked(Owner(p), null, Head(s), m[c].child, m[c].size)
    && (s.Some? ==> s.chunk in m && m'[s.chunk] == m[s.chunk].(prev := c, parent := null))
    && Kept(m, m', {c, Owner(p)} + Maybe(Head(s)))
  }

  lemma PutInHolds(m: Memory, m': Memory, p: Place, s: Kin, t: Kin)
    requires HoldsAt(m, p, s) && t.Some? && t.rest.None? && PutIn(m, m', p, s, t.chunk) && !p.Beside?
    requires t.chunk in m && m[t.chunk].child == Head(t.kids) && m[t.chunk].size == t.size
      && Holds(m, t.kids, t.chunk, null)
    requires Distinct(t) && Nodes(t) !! Nodes(s) + PlaceNodes(p)
    ensures HoldsAt(m', p, t.(rest := s))
    ensures Kept(m, m', {t.chunk} + PlaceNodes(p) + Nodes(s))
  {
    hide PlaceDistinct, HoldsPlace;
    Around0(m, p, s);
    Rehang(m, m', p, Head(s), t.chunk);
    HoldsSame(m, m', t.kids, t.chunk, null);
    Reheaded(m, m', s, Owner(p), null, t.chunk);
  }

  /** Memory after chunk d took over the links of the first of the siblings at a place. */
  ghost predicate Replacing(m: Memory, m': Memory, p: Place, s: Kin, d: Chunk, size: nat)
    requires s.Some?
  {
    && m'.Keys == m.Keys && s.chunk in m && d in m && m'[d] == m[s.chunk].(size := size)
    && (Holder(p) != null ==> Holder(p) in m && m'[Holder(p)] == Turned(p, m[Holder(p)], d))
    && (Owner(p) != null && s.rest.Some? ==> s.rest.chunk in m && m'[s.rest.chunk] == m[s.rest.chunk].(prev := d))
    && (s.kids.Some? ==> s.kids.chunk in m && m'[s.kids.chunk] == m[s.kids.chunk].(parent := d))
    && Kept(m, m', {s.chunk, d} + Maybe(Holder(p)) + Maybe(Head(s.kids))
                   + if Owner(p) == null then {} else Maybe(Head(s.rest)))
  }

  lemma ReplacingHolds(m: Memory, m': Memory, p: Place, s: Kin, d: Chunk, size: nat)
    requires HoldsAt(m, p, s) && s.Some? && Replacing(m, m', p, s, d, size)
    requires d !in Nodes(s) && d !in PlaceNodes(p)
    ensures HoldsAt(m', p, Some(d, size, s.kids, s.rest))
    ensures Kept(m, m', {d} + PlaceNodes(p) + Nodes(s))
  {
    hide PlaceDistinct, Distinct, HoldsPlace;
    Around0(m, p, s);
    ApartHere(p, s);
    Rehang(m, m', p, s.chunk, d);
    Reheaded2(m, m', s.kids, s.chunk, d);
    if Owner(p) == null {
      HoldsSame(m, m', s.rest, null, null);
    } else {
      Reheaded(m, m', s.rest, Owner(p), s.chunk, d);
    }
    SwapDistinct(p, s, d, size);
  }

  lemma SwapDistinct(p: Place, s: Kin, d: Chunk, size: nat)
    requires AllDistinct(p, s) && s.Some? && d !in Nodes(s) && d !in PlaceNodes(p)
    ensures AllDistinct(p, Some(d, size, s.kids, s.rest))
  {}

  /** The children of one chunk become those of another. */
  lemma Reheaded2(m: Memory, m': Memory, s: Kin, owner: Chunk, owner': Chunk)
    requires Holds(m, s, owner, null) && Distinct(s)
    requires s.Some? ==> s.chunk in m && s.chunk in m' && m'[s.chunk] == m[s.chunk].(parent := owner')
    requires forall n :: n in Nodes(s) && n != Head(s) && n in m ==> n in m' && m'[n] == m[n]
    ensures Holds(m', s, owner', null)
  {
    if s.Some? {
      HoldsSame(m, m', s.kids, s.chunk, null);
      Reowned(m, m', s.rest, owner, owner', s.chunk);
    }
  }

  /** Only the first child knows the owner. */
  lemma {:induction false} Reowned(m: Memory, m': Memory, s: Kin, owner: Chunk, owner': Chunk, prev: Chunk)
    requires Holds(m, s, owner, prev) && Same(m, m', Nodes(s))
    ensures Holds(m', s, owner', prev)
  {
    if s.Some? {
      HoldsSame(m, m', s.kids, s.chunk, null);
      Reowned(m, m', s.rest, owner, owner', s.chunk);
    }
  }
}
