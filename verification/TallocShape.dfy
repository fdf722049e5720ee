/**
  Allocation hierarchies as values: a list of siblings with their children, places in such a
  hierarchy, and what memory looks like when it holds one. Only the first of a list of siblings
  knows its parent; chunks without an owner know no siblings.
 */
module TallocShape {
  import opened TallocChunk

  /** A list of siblings. */
  datatype Kin = None | Some(chunk: Chunk, size: nat, kids: Kin, rest: Kin)

  /**
    A place, innermost first: among the chunks without owner, under a chunk whose own
    surroundings do not matter, under a chunk, or behind a sibling.
   */
  datatype Place =
    | Roots
    | Loose(chunk: Chunk)
    | Below(chunk: Chunk, size: nat, rest: Kin, up: Place)
    | Beside(chunk: Chunk, size: nat, kids: Kin, up: Place)

  ghost function Head(s: Kin): Chunk? {
    if s.None? then null else s.chunk
  }

  /** The siblings a place is among, or the owner's, one step up. */
  ghost function Around(p: Place, s: Kin): Kin
    requires p.Below? || p.Beside?
  {
    if p.Below? then Some(p.chunk, p.size, s, p.rest) else Some(p.chunk, p.size, p.kids, s)
  }

  ghost function Plug(p: Place, s: Kin): Kin
    decreases p
  {
    if p.Below? || p.Beside? then Plug(p.up, Around(p, s)) else s
  }

  ghost function Outermost(p: Place): (r: Place)
    ensures r.Roots? || r.Loose?
  {
    if p.Below? || p.Beside? then Outermost(p.up) else p
  }

  ghost function Owner(p: Place): Chunk? {
    match p
    case Roots => null
    case Loose(c) => c
    case Below(c, _, _, _) => c
    case Beside(_, _, _, up) => Owner(up)
  }

  /** What the sibling behind c has as predecessor. */
  ghost function Behind(owner: Chunk?, c: Chunk): Chunk? {
    if owner == null then null else c
  }

  ghost function Prev(p: Place): Chunk? {
    if p.Beside? then Behind(Owner(p.up), p.chunk) else null
  }

  ghost function Nodes(s: Kin): set<Chunk> {
    if s.None? then {} else {s.chunk} + Nodes(s.kids) + Nodes(s.rest)
  }

  ghost function PlaceNodes(p: Place): set<Chunk> {
    match p
    case Roots => {}
    case Loose(c) => {c}
    case Below(c, _, rest, up) => {c} + Nodes(rest) + PlaceNodes(up)
    case Beside(c, _, kids, up) => {c} + Nodes(kids) + PlaceNodes(up)
  }

  /** No chunk occurs twice. */
  ghost predicate Distinct(s: Kin) {
    s.Some? ==>
      && s.chunk !in Nodes(s.kids) && s.chunk !in Nodes(s.rest) && Nodes(s.kids) !! Nodes(s.rest)
      && Distinct(s.kids) && Distinct(s.rest)
  }

  ghost predicate PlaceDistinct(p: Place) {
    match p
    case Roots => true
    case Loose(c) => true
    case Below(c, _, rest, up) =>
      && c !in Nodes(rest) && c !in PlaceNodes(up) && Nodes(rest) !! PlaceNodes(up)
      && Distinct(rest) && PlaceDistinct(up)
    case Beside(c, _, kids, up) =>
      && c !in Nodes(kids) && c !in PlaceNodes(up) && Nodes(kids) !! PlaceNodes(up)
      && Distinct(kids) && PlaceDistinct(up)
  }

  ghost predicate AllDistinct(p: Place, s: Kin) {
    Distinct(s) && PlaceDistinct(p) && Nodes(s) !! PlaceNodes(p)
  }

  // ---------------------------------------------------------------- memory

  datatype Links = Links(next: Chunk?, prev: Chunk?, parent: Chunk?, child: Chunk?, size: nat)

  type Memory = map<Chunk, Links>

  /** What a chunk with this owner and predecessor holds. */
  ghost function Linked(owner: Chunk?, prev: Chunk?, next: Chunk?, child: Chunk?, size: nat): Links {
    Links(if owner == null then null else next, prev, if prev == null then owner else null, child, size)
  }

  ghost predicate Holds(m: Memory, s: Kin, owner: Chunk?, prev: Chunk?) {
    s.Some? ==>
      && s.chunk in m && m[s.chunk] == Linked(owner, prev, Head(s.rest), Head(s.kids), s.size)
      && Holds(m, s.kids, s.chunk, null) && Holds(m, s.rest, owner, Behind(owner, s.chunk))
  }

  /** Memory holds what surrounds a list of siblings that starts with hole. */
  ghost predicate HoldsPlace(m: Memory, p: Place, hole: Chunk?)
    decreases p
  {
    match p
    case Roots => true
    case Loose(c) => c in m && m[c].child == hole
    case Below(c, size, rest, up) =>
      && c in m && m[c] == Linked(Owner(up), Prev(up), Head(rest), hole, size)
      && Holds(m, rest, Owner(up), Behind(Owner(up), c)) && HoldsPlace(m, up, c)
    case Beside(c, size, kids, up) =>
      && c in m && m[c] == Linked(Owner(up), Prev(up), hole, Head(kids), size)
      && Holds(m, kids, c, null) && HoldsPlace(m, up, c)
  }

  ghost predicate HoldsAt(m: Memory, p: Place, s: Kin) {
    HoldsPlace(m, p, Head(s)) && Holds(m, s, Owner(p), Prev(p)) && AllDistinct(p, s)
  }

  /** One step up, nothing is lost. */
  lemma StepUp(m: Memory, p: Place, s: Kin)
    requires p.Below? || p.Beside?
    ensures HoldsAt(m, p, s) <==> HoldsAt(m, p.up, Around(p, s))
    ensures AllDistinct(p, s) <==> AllDistinct(p.up, Around(p, s))
    ensures Nodes(s) + PlaceNodes(p) == Nodes(Around(p, s)) + PlaceNodes(p.up)
  {}

  lemma {:induction false} HoldsPlug(m: Memory, p: Place, s: Kin)
    ensures HoldsAt(m, p, s) <==> HoldsAt(m, Outermost(p), Plug(p, s))
    ensures AllDistinct(p, s) <==> AllDistinct(Outermost(p), Plug(p, s))
    ensures Nodes(s) + PlaceNodes(p) == Nodes(Plug(p, s)) + PlaceNodes(Outermost(p))
    decreases p
  {
    hide HoldsAt, AllDistinct, Nodes, PlaceNodes;
    if p.Below? || p.Beside? {
      StepUp(m, p, s);
      HoldsPlug(m, p.up, Around(p, s));
    }
  }

  ghost predicate Same(m: Memory, m': Memory, ns: set<Chunk>) {
    forall n :: n in ns && n in m ==> n in m' && m'[n] == m[n]
  }

  lemma {:induction false} HoldsSame(m: Memory, m': Memory, s: Kin, owner: Chunk?, prev: Chunk?)
    requires Holds(m, s, owner, prev) && Same(m, m', Nodes(s))
    ensures Holds(m', s, owner, prev)
  {
    if s.Some? {
      HoldsSame(m, m', s.kids, s.chunk, null);
      HoldsSame(m, m', s.rest, owner, Behind(owner, s.chunk));
    }
  }

  lemma {:induction false} HoldsPlaceSame(m: Memory, m': Memory, p: Place, hole: Chunk?)
    requires HoldsPlace(m, p, hole) && Same(m, m', PlaceNodes(p))
    ensures HoldsPlace(m', p, hole)
    decreases p
  {
    match p
    case Roots =>
    case Loose(_) =>
    case Below(c, _, rest, up) =>
      HoldsSame(m, m', rest, Owner(up), Behind(Owner(up), c));
      HoldsPlaceSame(m, m', up, c);
    case Beside(c, _, kids, up) =>
      HoldsSame(m, m', kids, c, null);
      HoldsPlaceSame(m, m', up, c);
  }

  // ---------------------------------------------------------------- changing links

  /** The chunk with a link to the siblings at a place: the owner, or the predecessor; null when there is none. */
  ghost function Holder(p: Place): Chunk? {
    match p
    case Roots => null
    case Loose(c) => c
    case Below(c, _, _, _) => c
    case Beside(c, _, _, up) => Behind(Owner(up), c)
  }

  /** The holder's link turned. */
  ghost function Turned(p: Place, l: Links, hole: Chunk?): Links {
    if p.Beside? then l.(next := hole) else l.(child := hole)
  }

  lemma Rehang(m: Memory, m': Memory, p: Place, hole: Chunk?, hole': Chunk?)
    requires HoldsPlace(m, p, hole) && PlaceDistinct(p)
    requires Holder(p) != null ==> Holder(p) in m && Holder(p) in m' && m'[Holder(p)] == Turned(p, m[Holder(p)], hole')
    requires forall n :: n in PlaceNodes(p) && n != Holder(p) && n in m ==> n in m' && m'[n] == m[n]
    ensures HoldsPlace(m', p, hole')
  {
    match p
    case Roots =>
    case Loose(_) =>
    case Below(c, _, rest, up) =>
      HoldsSame(m, m', rest, Owner(up), Behind(Owner(up), c));
      HoldsPlaceSame(m, m', up, c);
    case Beside(c, _, kids, up) =>
      HoldsSame(m, m', kids, c, null);
      HoldsPlaceSame(m, m', up, c);
  }

  /** A list of siblings gets another predecessor, or becomes the first under an owner. */
  lemma Reheaded(m: Memory, m': Memory, s: Kin, owner: Chunk, prev: Chunk?, prev': Chunk?)
    requires Holds(m, s, owner, prev) && Distinct(s)
    requires s.Some? ==> s.chunk in m && s.chunk in m'
    requires s.Some? ==> m'[s.chunk] == m[s.chunk].(prev := prev', parent := if prev' == null then owner else null)
    requires forall n :: n in Nodes(s) && n != Head(s) && n in m ==> n in m' && m'[n] == m[n]
    ensures Holds(m', s, owner, prev')
  {
    if s.Some? {
      HoldsSame(m, m', s.kids, s.chunk, null);
      HoldsSame(m, m', s.rest, owner, s.chunk);
    }
  }
}
