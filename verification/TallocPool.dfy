/** Pools: one block of memory for many chunks, with an object count, as values. */
module TallocPool {
  import opened TallocChunk

  /** What a header says about pools. */
  datatype Info = Info(isPool: bool, inPool: bool, pool: Chunk?, at: nat, top: nat, count: nat, size: nat,
    members: set<Chunk>)

  type Data = map<Chunk, Info>

  const BASE: nat := HEADER + POOL_HEADER

  /** The bytes of two members of a pool do not overlap. */
  ghost predicate Apart(a: Info, b: Info) {
    a.at + HEADER + a.size <= b.at || b.at + HEADER + b.size <= a.at
  }

  /** A live chunk of pool p, inside the part of the pool given out so far. */
  ghost predicate MemberOk(d: Data, live: set<Chunk>, p: Chunk, c: Chunk) {
    && p in d && c in live && c in d && d[c].inPool && d[c].pool == p
    && BASE <= d[c].at && d[c].at + HEADER + d[c].size <= d[p].top
  }

  ghost predicate PoolOk(d: Data, live: set<Chunk>, p: Chunk) {
    && p in d && d[p].isPool && !d[p].inPool
    && d[p].count == |d[p].members| + (if p in live then 1 else 0) && d[p].count > 0
    && BASE <= d[p].top <= HEADER + d[p].size
    && (forall c :: c in d[p].members ==> MemberOk(d, live, p, c))
    && (forall a, b :: a in d[p].members && b in d[p].members && a != b ==> Apart(d[a], d[b]))
  }

  ghost predicate ChunkOk(d: Data, live: set<Chunk>, held: set<Chunk>, c: Chunk) {
    && c in d && !(d[c].isPool && d[c].inPool) && (d[c].isPool ==> c in held)
    && (d[c].inPool ==> d[c].pool != null && d[c].pool in held && d[c].pool in d && c in d[d[c].pool].members)
  }

  /** live: the chunks not yet freed; held: the pools whose memory was not yet given back. */
  ghost predicate PoolsOk(d: Data, live: set<Chunk>, held: set<Chunk>) {
    (forall c :: c in live ==> ChunkOk(d, live, held, c)) && (forall p :: p in held ==> PoolOk(d, live, p))
  }

  /** The memory of a pool is held exactly as long as the pool or one of its members lives. */
  lemma HeldWhileNeeded(d: Data, live: set<Chunk>, held: set<Chunk>, p: Chunk)
    requires PoolsOk(d, live, held)
    ensures p in held <==> (p in live && d[p].isPool) || exists c :: c in live && d[c].inPool && d[c].pool == p
  {
    if p in held && p !in live {
      assert d[p].members != {};
      var c :| c in d[p].members;
      assert MemberOk(d, live, p, c);
    }
    if c :| c in live && c in d && d[c].inPool && d[c].pool == p {
      assert ChunkOk(d, live, held, c);
    }
    if p in live { assert ChunkOk(d, live, held, p); }
  }

  /** Live members of the same pool occupy disjoint ranges inside it. */
  lemma MembersApart(d: Data, live: set<Chunk>, held: set<Chunk>, a: Chunk, b: Chunk)
    requires PoolsOk(d, live, held) && a in live && b in live && a != b
    requires a in d && b in d && d[a].inPool && d[b].inPool && d[a].pool == d[b].pool
    ensures Apart(d[a], d[b]) && d[a].pool in d
    ensures BASE <= d[a].at && d[a].at + HEADER + d[a].size <= HEADER + d[d[a].pool].size
  {
    assert ChunkOk(d, live, held, a) && ChunkOk(d, live, held, b);
    var p: Chunk := d[a].pool;
    assert PoolOk(d, live, p) && MemberOk(d, live, p, a);
  }

  /** The count is that of the live members, and one more for the pool while it lives. */
  lemma CountIsMembers(d: Data, live: set<Chunk>, held: set<Chunk>, p: Chunk)
    requires PoolsOk(d, live, held) && p in held
    ensures p in d
      && d[p].count == |set c | c in live && c in d && d[c].inPool && d[c].pool == p| + if p in live then 1 else 0
  {
    assert PoolOk(d, live, p);
    forall c ensures c in d[p].members <==> c in live && c in d && d[c].inPool && d[c].pool == p {
      if c in d[p].members { assert MemberOk(d, live, p, c); }
      if c in live && c in d && d[c].inPool && d[c].pool == p { assert ChunkOk(d, live, held, c); }
    }
    assert d[p].members == set c | c in live && c in d && d[c].inPool && d[c].pool == p;
  }

  // ---------------------------------------------------------------- steps

  /** The pool a chunk belongs to as the pool itself or as a member. */
  ghost function PoolOf(d: Data, c: Chunk): Chunk?
    requires c in d
  {
    if d[c].isPool then c else if d[c].inPool then d[c].pool else null
  }

  lemma PoolOfHeld(d: Data, live: set<Chunk>, held: set<Chunk>, c: Chunk)
    requires PoolsOk(d, live, held) && c in live
    ensures c in d && (PoolOf(d, c) != null ==> PoolOf(d, c) in held && PoolOf(d, c) in d)
    ensures PoolOf(d, c) == null <==> !d[c].isPool && !d[c].inPool
    ensures PoolOf(d, c) != null ==> d[PoolOf(d, c)].count > 0 && d[PoolOf(d, c)].isPool && !d[PoolOf(d, c)].inPool
    ensures PoolOf(d, c) != null ==> BASE <= d[PoolOf(d, c)].top <= HEADER + d[PoolOf(d, c)].size
  {
    assert ChunkOk(d, live, held, c);
    if PoolOf(d, c) != null { assert PoolOk(d, live, PoolOf(d, c)); }
  }

  /** The pool's header after a member, or the pool itself, was freed. */
  ghost function Fewer(i: Info, c: Chunk): Info
    requires i.count > 0
  {
    i.(count := i.count - 1, members := i.members - {c})
  }

  ghost function HeldAfter(d: Data, held: set<Chunk>, c: Chunk): set<Chunk>
    requires c in d && PoolOf(d, c) != null && PoolOf(d, c) in d
  {
    var p: Chunk := PoolOf(d, c);
    if d[p].count == 1 then held - {p} else held
  }

  /** Freeing a chunk that has to do with a pool. */
  lemma Freed(d: Data, live: set<Chunk>, held: set<Chunk>, c: Chunk)
    requires PoolsOk(d, live, held) && c in live && c in d && PoolOf(d, c) != null
    requires PoolOf(d, c) in d && d[PoolOf(d, c)].count > 0
    ensures PoolsOk(d[PoolOf(d, c) := Fewer(d[PoolOf(d, c)], c)], live - {c}, HeldAfter(d, held, c))
  {
    var p: Chunk := PoolOf(d, c);
    var d', live', held' := d[p := Fewer(d[p], c)], live - {c}, HeldAfter(d, held, c);
    assert ChunkOk(d, live, held, c) && PoolOk(d, live, p);
    FewerMembers(d, live, p, c);
    forall q | q in held' ensures PoolOk(d', live', q) {
      assert PoolOk(d, live, q);
      forall x | x in d'[q].members ensures MemberOk(d', live', q, x) {
        assert MemberOk(d, live, q, x);
      }
      if q != p { assert c !in d[q].members by { assert c in d[q].members ==> MemberOk(d, live, q, c); } }
    }
    forall x | x in live' ensures ChunkOk(d', live', held', x) {
      assert ChunkOk(d, live, held, x);
      if d[x].inPool && d[x].pool == p && d[p].count == 1 {
        LastMember(d, live, p, c, x);
      }
    }
  }

  lemma FewerMembers(d: Data, live: set<Chunk>, p: Chunk, c: Chunk)
    requires PoolOk(d, live, p) && c in live && (c == p || c in d[p].members)
    ensures |d[p].members - {c}| + (if p in live - {c} then 1 else 0) == d[p].count - 1
    ensures c == p ==> c !in d[p].members
  {
    if c in d[p].members {
      assert MemberOk(d, live, p, c);
      assert d[p].members == (d[p].members - {c}) + {c};
    } else {
      assert d[p].members - {c} == d[p].members;
    }
    if p in d[p].members { assert MemberOk(d, live, p, p); }
  }

  lemma LastMember(d: Data, live: set<Chunk>, p: Chunk, c: Chunk, x: Chunk)
    requires PoolOk(d, live, p) && c in live && (c == p || c in d[p].members) && x in d[p].members && x != c
    ensures d[p].count > 1
  {
    FewerMembers(d, live, p, c);
    assert x in d[p].members - {c};
  }

  /** Freeing a chunk outside of pools. */
  lemma FreedPlain(d: Data, live: set<Chunk>, held: set<Chunk>, c: Chunk)
    requires PoolsOk(d, live, held) && c in live && c in d && PoolOf(d, c) == null
    ensures PoolsOk(d, live - {c}, held)
  {
    var live' := live - {c};
    forall q | q in held ensures PoolOk(d, live', q) {
      assert PoolOk(d, live, q);
      forall x | x in d[q].members ensures MemberOk(d, live', q, x) {
        assert MemberOk(d, live, q, x);
      }
    }
    forall x | x in live' ensures ChunkOk(d, live', held, x) {
      assert ChunkOk(d, live, held, x);
    }
  }

  /** A chunk of n bytes, header included, fits into what is left of a chunk's pool. */
  ghost predicate Fits(d: Data, c: Chunk, n: nat)
    requires c in d
  {
    var p := PoolOf(d, c);
    p != null && p in d && d[p].top + Aligned(n) <= HEADER + d[p].size
  }

  ghost function GivenOut(i: Info, c: Chunk, n: nat): Info {
    i.(top := i.top + Aligned(n), count := i.count + 1, members := i.members + {c})
  }

  lemma TakenInSteps(d: Data, p: Chunk, c: Chunk, size: nat)
    requires p in d && c !in d
    ensures d[p := GivenOut(d[p], c, HEADER + size)][c := Info(false, true, p, d[p].top, 0, 0, size, {})]
      == TakenFrom(d, p, c, size)
  {}

  /** A chunk taken from a pool. */
  ghost function TakenFrom(d: Data, p: Chunk, c: Chunk, size: nat): Data
    requires p in d
  {
    var m := Info(false, true, p, d[p].top, 0, 0, size, {});
    d[c := m][p := GivenOut(d[p], c, HEADER + size)]
  }

  lemma Taken(d: Data, live: set<Chunk>, held: set<Chunk>, p: Chunk, c: Chunk, size: nat)
    requires PoolsOk(d, live, held) && p in held && p in d && c !in d && c !in live && c !in held
    requires d[p].top + Aligned(HEADER + size) <= HEADER + d[p].size
    ensures PoolsOk(TakenFrom(d, p, c, size), live + {c}, held)
  {
    var d', live' := TakenFrom(d, p, c, size), live + {c};
    assert PoolOk(d, live, p);
    forall q | q in held ensures PoolOk(d', live', q) {
      if q == p { TakenHere(d, live, p, c, size); } else { TakenThere(d, live, p, c, size, q); }
    }
    forall x | x in live' ensures ChunkOk(d', live', held, x) {
      if x != c { assert ChunkOk(d, live, held, x); }
    }
  }

  lemma TakenHere(d: Data, live: set<Chunk>, p: Chunk, c: Chunk, size: nat)
    requires PoolOk(d, live, p) && c !in d && c !in live
    requires d[p].top + Aligned(HEADER + size) <= HEADER + d[p].size
    ensures PoolOk(TakenFrom(d, p, c, size), live + {c}, p)
  {
    var d', live' := TakenFrom(d, p, c, size), live + {c};
    assert c !in d[p].members;
    assert p in d[p].members ==> MemberOk(d, live, p, p);
    forall x | x in d'[p].members ensures MemberOk(d', live', p, x) {
      if x != c { assert MemberOk(d, live, p, x); }
    }
    forall a, b | a in d'[p].members && b in d'[p].members && a != b ensures Apart(d'[a], d'[b]) {
      if a != c { assert MemberOk(d, live, p, a); }
      if b != c { assert MemberOk(d, live, p, b); }
    }
  }

  lemma TakenThere(d: Data, live: set<Chunk>, p: Chunk, c: Chunk, size: nat, q: Chunk)
    requires PoolOk(d, live, q) && PoolOk(d, live, p) && q != p && c !in d && c !in live
    ensures PoolOk(TakenFrom(d, p, c, size), live + {c}, q)
  {
    var d', live' := TakenFrom(d, p, c, size), live + {c};
    assert p in d[q].members ==> MemberOk(d, live, q, p);
    forall x | x in d[q].members ensures MemberOk(d', live', q, x) && x != c && x != p {
      assert MemberOk(d, live, q, x);
    }
  }

  /** A chunk from malloc. */
  lemma Malloced(d: Data, live: set<Chunk>, held: set<Chunk>, c: Chunk, i: Info)
    requires PoolsOk(d, live, held) && c !in d && c !in live && c !in held && !i.isPool && !i.inPool
    ensures PoolsOk(d[c := i], live + {c}, held)
  {
    var d', live' := d[c := i], live + {c};
    forall q | q in held ensures PoolOk(d', live', q) {
      assert PoolOk(d, live, q);
      forall x | x in d[q].members ensures MemberOk(d', live', q, x) && x != c {
        assert MemberOk(d, live, q, x);
      }
    }
    forall x | x in live' ensures ChunkOk(d', live', held, x) {
      if x != c { assert ChunkOk(d, live, held, x); }
    }
  }

  /** A chunk from malloc becomes a pool. */
  lemma MadePool(d: Data, live: set<Chunk>, held: set<Chunk>, c: Chunk)
    requires PoolsOk(d, live, held) && c in live && c !in held && c in d && !d[c].inPool && d[c].size >= POOL_HEADER
    ensures PoolsOk(d[c := d[c].(isPool := true, top := BASE, count := 1, members := {})], live, held + {c})
  {
    var d', held' := d[c := d[c].(isPool := true, top := BASE, count := 1, members := {})], held + {c};
    forall q | q in held' ensures PoolOk(d', live, q) {
      if q != c {
        assert PoolOk(d, live, q);
        forall x | x in d[q].members ensures MemberOk(d', live, q, x) && x != c {
          assert MemberOk(d, live, q, x);
        }
      }
    }
    forall x | x in live ensures ChunkOk(d', live, held', x) {
      assert ChunkOk(d, live, held, x);
    }
  }

  /** Once nothing but a pool itself is left, all of it can be given out again. */
  lemma Reset(d: Data, live: set<Chunk>, held: set<Chunk>, p: Chunk)
    requires PoolsOk(d, live, held) && p in live && p in held && p in d && d[p].count == 1
    ensures PoolsOk(d[p := d[p].(top := BASE)], live, held) && d[p].members == {}
  {
    var d' := d[p := d[p].(top := BASE)];
    assert PoolOk(d, live, p);
    forall q | q in held ensures PoolOk(d', live, q) {
      assert PoolOk(d, live, q);
      forall x | x in d[q].members ensures MemberOk(d', live, q, x) && x != p {
        assert MemberOk(d, live, q, x);
      }
    }
    forall x | x in live ensures ChunkOk(d', live, held, x) {
      assert ChunkOk(d, live, held, x);
    }
  }

  /** A chunk that is no pool gets another size where it is; a member of a pool only a smaller one. */
  lemma Resized(d: Data, live: set<Chunk>, held: set<Chunk>, c: Chunk, size: nat)
    requires PoolsOk(d, live, held) && c in live && c in d && !d[c].isPool && (d[c].inPool ==> size <= d[c].size)
    ensures PoolsOk(d[c := d[c].(size := size)], live, held)
  {
    var d' := d[c := d[c].(size := size)];
    forall q | q in held ensures PoolOk(d', live, q) {
      assert PoolOk(d, live, q);
      forall x | x in d[q].members ensures MemberOk(d', live, q, x) {
        assert MemberOk(d, live, q, x);
      }
    }
    forall x | x in live ensures ChunkOk(d', live, held, x) {
      assert ChunkOk(d, live, held, x);
    }
  }

  /** Headers of chunks that are gone do not count. */
  lemma Restricted(d: Data, d': Data, live: set<Chunk>, held: set<Chunk>)
    requires PoolsOk(d, live, held) && d'.Keys == live + held && forall x :: x in d' ==> x in d && d'[x] == d[x]
    ensures PoolsOk(d', live, held)
  {
    forall q | q in held ensures PoolOk(d', live, q) {
      assert PoolOk(d, live, q);
      forall x | x in d'[q].members ensures MemberOk(d', live, q, x) {
        assert MemberOk(d, live, q, x);
      }
    }
    forall x | x in live ensures ChunkOk(d', live, held, x) {
      assert ChunkOk(d, live, held, x);
    }
  }

  lemma Widened(d: Data, d': Data, live: set<Chunk>, held: set<Chunk>)
    requires PoolsOk(d', live, held) && d'.Keys == live + held && forall x :: x in d' ==> x in d && d'[x] == d[x]
    ensures PoolsOk(d, live, held)
  {
    forall q | q in held ensures PoolOk(d, live, q) {
      assert PoolOk(d', live, q);
      forall x | x in d[q].members ensures MemberOk(d, live, q, x) {
        assert MemberOk(d', live, q, x);
      }
    }
    forall x | x in live ensures ChunkOk(d, live, held, x) {
      assert ChunkOk(d', live, held, x);
    }
  }

  /** A member that takes a new place in its own pool leaves more than one object behind. */
  lemma TakenCounts(d: Data, live: set<Chunk>, held: set<Chunk>, c: Chunk, c': Chunk, size: nat)
    requires PoolsOk(d, live, held) && c in live && c in d && d[c].inPool && d[c].pool != null && d[c].pool in d
    requires c' !in d && c' !in live && c' !in held && d[d[c].pool].count > 0 && d[d[c].pool].isPool
    ensures var p: Chunk := d[c].pool; var d1 := TakenFrom(d, p, c', size);
      && c in d1 && PoolOf(d1, c) == p && p in d1 && d1[p].count == d[p].count + 1 && HeldAfter(d1, held, c) == held
  {
    assert ChunkOk(d, live, held, c);
  }

  // ---------------------------------------------------------------- moving a member out of its pool

  /** What reallocating member c of a pool as chunk c' from malloc does: the count goes down, nothing else. */
  ghost function MovedOut(d: Data, c: Chunk, c': Chunk, i: Info): Data
    requires c in d && d[c].inPool && d[c].pool != null && d[c].pool in d && d[d[c].pool].count > 0
  {
    var p: Chunk := d[c].pool;
    d[p := Fewer(d[p], c)][c' := i]
  }

  /** The pool of a member was freed, and no other member lives. */
  ghost predicate LastOfFreed(d: Data, live: set<Chunk>, c: Chunk)
    requires c in d
  {
    d[c].pool !in live && !exists x :: x in live && x != c && x in d && d[x].inPool && d[x].pool == d[c].pool
  }

  lemma LastCounts(d: Data, live: set<Chunk>, held: set<Chunk>, c: Chunk)
    requires PoolsOk(d, live, held) && c in live && c in d && d[c].inPool
    ensures d[c].pool != null && d[c].pool in held && d[c].pool in d && PoolOf(d, c) == d[c].pool
    ensures d[d[c].pool].count == 1 <==> LastOfFreed(d, live, c)
    ensures d[d[c].pool].count > 0 && d[d[c].pool].isPool
  {
    var p: Chunk := d[c].pool;
    assert ChunkOk(d, live, held, c) && PoolOk(d, live, p);
    FewerMembers(d, live, p, c);
    if d[p].count > 1 && p !in live {
      assert d[p].members - {c} != {};
      var x :| x in d[p].members - {c};
      assert MemberOk(d, live, p, x);
    }
    if x :| x in live && x != c && x in d && d[x].inPool && d[x].pool == p {
      assert ChunkOk(d, live, held, x);
      LastMember(d, live, p, c, x);
    }
  }

  /** Moving a member out is right exactly if the pool itself, or another member, still lives. */
  lemma MovedOutRight(d: Data, live: set<Chunk>, held: set<Chunk>, c: Chunk, c': Chunk, i: Info)
    requires PoolsOk(d, live, held) && c in live && c in d && d[c].inPool && c' !in d && c' !in live && c' !in held
    requires d[c].pool != null && d[c].pool in d && d[d[c].pool].count > 0 && !i.isPool && !i.inPool
    ensures PoolsOk(MovedOut(d, c, c', i), live - {c} + {c'}, held) <==> !LastOfFreed(d, live, c)
  {
    hide LastOfFreed;
    LastCounts(d, live, held, c);
    var p: Chunk := d[c].pool;
    if d[p].count > 1 {
      Freed(d, live, held, c);
      Malloced(d[p := Fewer(d[p], c)], live - {c}, held, c', i);
    } else {
      assert !PoolOk(MovedOut(d, c, c', i), live - {c} + {c'}, p);
    }
  }

  /** A run in which it is not: the pool was freed, its last member grows, the pool's memory stays for good. */
  lemma MovedOutLeaks(p: Chunk, c: Chunk, c': Chunk) returns (d: Data, live: set<Chunk>, held: set<Chunk>)
    requires p != c && p != c' && c != c'
    ensures PoolsOk(d, live, held) && c in live && c in d && d[c].inPool && d[c].pool == p
    ensures p in held && p in d && d[p].count > 0 && !Fits(d, c, HEADER + 1000)
    ensures var d', live' := MovedOut(d, c, c', d[c].(inPool := false, size := 1000)), live - {c} + {c'};
      && d'[p].count == 0 && p in held && p !in live'
      && !exists x :: x in live' && x in d' && d'[x].inPool && d'[x].pool == p
  {
    d := map[
      p := Info(true, false, null, 0, BASE + 96, 1, 112, {c}),
      c := Info(false, true, p, BASE, 0, 0, 16, {})
    ];
    live, held := {c}, {p};
    assert MemberOk(d, live, p, c) && PoolOk(d, live, p) && ChunkOk(d, live, held, c);
  }
}
