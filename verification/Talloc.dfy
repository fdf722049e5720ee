/** The hierarchical allocator: allocating, pools, freeing, stealing, sizes, reallocating. */
module Talloc {
  import opened TallocChunk
  import opened TallocShape
  import opened TallocHeap
  import opened TallocLinks
  import opened TallocSpec
  import opened TallocPool
  import opened TallocWhole

  class Allocator {
    const chunks: Chunks
    ghost var forest: Kin
    ghost var held: set<Chunk>

    constructor ()
      ensures Valid() && forest == None && held == {} && fresh(chunks) && chunks.repr == {}
    {
      chunks := new Chunks();
      forest, held := None, {};
    }

    /** What all headers say about pools. */
    ghost function Pools(): (d: Data)
      reads this`held, chunks
      reads chunks.repr`isPool, chunks.repr`inPool, chunks.repr`pool, chunks.repr`at, chunks.repr`top, chunks.repr`count
      reads chunks.repr`size, chunks.repr`members
      reads held`isPool, held`inPool, held`pool, held`at, held`top, held`count, held`size, held`members
      ensures d.Keys == chunks.repr + held
    {
      map c | c in chunks.repr + held :: Info(c.isPool, c.inPool, c.pool, c.at, c.top, c.count, c.size, c.members)
    }

    ghost predicate PoolsFine()
      reads this`held, chunks
      reads chunks.repr`isPool, chunks.repr`inPool, chunks.repr`pool, chunks.repr`at, chunks.repr`top, chunks.repr`count
      reads chunks.repr`size, chunks.repr`members
      reads held`isPool, held`inPool, held`pool, held`at, held`top, held`count, held`size, held`members
    {
      PoolsOk(Pools(), chunks.repr, held)
    }

    ghost predicate Quiet()
      reads chunks, chunks.repr`loop
    {
      forall c :: c in chunks.repr ==> !c.loop
    }

    /** No chunk is larger than the memory it was granted. */
    ghost predicate Granted()
      reads chunks, chunks.repr`size, chunks.repr`room
    {
      forall c :: c in chunks.repr ==> c.size <= c.room
    }

    ghost predicate Is(w: Kin)
      reads chunks, chunks.repr`next, chunks.repr`prev, chunks.repr`parent, chunks.repr`child, chunks.repr`size
      reads chunks.repr`room
    {
      Granted() &&
      HoldsAt(chunks.Mem(), Roots, w) && chunks.repr == Nodes(w)
    }

    ghost predicate Valid()
      reads this, chunks, chunks.repr, held
    {
      Is(forest) && PoolsFine() && Quiet()
    }

    // -------------------------------------------------------------- freeing

    /** The last steps of _talloc_free: the memory, or the pool's when this was its last object, goes back. */
    method Release(tc: Chunk)
      requires tc in chunks.repr && PoolsFine()
      modifies this`held, chunks, held`count, held`members
      ensures chunks.repr == old(chunks.repr) - {tc} && chunks.Mem() == old(chunks.Mem()) - {tc}
      ensures PoolsFine() && held <= old(held) && (old(Quiet()) ==> Quiet()) && (old(Granted()) ==> Granted())
    {
      hide PoolsOk, Pools, PoolOf;
      PoolOfHeld(Pools(), chunks.repr, held, tc);
      Looked(tc);
      if tc.isPool || tc.inPool {
        var pool: Chunk := if tc.isPool then tc else tc.pool;
        ReleaseFrom(pool, tc);
      } else {
        ghost var d := Pools();
        FreedPlain(d, chunks.repr, held, tc);
        Forget(tc, null);
        Restricted(d, Pools(), chunks.repr, held);
      }
    }

    /** The same for an object of a pool. */
    method ReleaseFrom(pool: Chunk, tc: Chunk)
      requires tc in chunks.repr && PoolsFine() && PoolOf(Pools(), tc) == pool && pool in held
      modifies this`held, chunks, held`count, held`members
      ensures chunks.repr == old(chunks.repr) - {tc} && chunks.Mem() == old(chunks.Mem()) - {tc}
      ensures PoolsFine() && held <= old(held)
    {
      hide PoolsOk, Pools, Fewer, PoolOf;
      ghost var d := Pools();
      PoolOfHeld(d, chunks.repr, held, tc);
      Looked(pool);
      Freed(d, chunks.repr, held, tc);
      // a count of zero would abort here
      CountDown(pool, tc);
      if pool.count == 0 {
        Forget(tc, pool);
      } else {
        Forget(tc, null);
      }
      Restricted(d[pool := Fewer(d[pool], tc)], Pools(), chunks.repr, held);
    }

    /** One object less in a pool. */
    method CountDown(pool: Chunk, tc: Chunk)
      requires pool in chunks.repr + held && pool.count > 0
      modifies pool`count, pool`members
      ensures Pools() == old(Pools())[pool := Fewer(old(Pools())[pool], tc)]
      ensures pool.count == old(pool.count) - 1 && chunks.Mem() == old(chunks.Mem())
    {
      hide Chunks.Mem;
      pool.count := pool.count - 1;
      pool.members := pool.members - {tc};
    }

    /** A chunk goes, and perhaps a pool. */
    ghost method Forget(tc: Chunk, pool: Chunk?)
      modifies this`held, chunks
      ensures held == if pool == null then old(held) else old(held) - {pool}
      ensures chunks.repr == old(chunks.repr) - {tc} && chunks.Mem() == old(chunks.Mem()) - {tc}
      ensures forall x :: x in Pools() ==> x in old(Pools()) && Pools()[x] == old(Pools())[x]
      ensures old(Quiet()) ==> Quiet()
    {
      held := if pool == null then held else held - {pool};
      chunks.Drop(tc);
    }

    // -------------------------------------------------------------- the recursion of a free

    /** _talloc_free of a chunk at some place: out of its list, then its children, then itself. */
    method FreeAt(tc: Chunk, ghost p: Place, ghost s: Kin) returns (r: int)
      requires HoldsAt(chunks.Mem(), p, s) && s.Some? && s.chunk == tc && PoolsFine()
      requires forall n :: n in chunks.repr && n in Nodes(One(s)) ==> !n.loop
      modifies this`held, chunks, held`count, held`members
      modifies chunks.repr`next, chunks.repr`prev, chunks.repr`parent, chunks.repr`child, chunks.repr`loop
      ensures r == 0 && HoldsAt(chunks.Mem(), p, s.rest)
      ensures chunks.repr == old(chunks.repr) - Nodes(One(s))
      ensures Kept(old(chunks.Mem()), chunks.Mem(), Nodes(s) + PlaceNodes(p))
      ensures PoolsFine() && held <= old(held)
      ensures forall n :: n in chunks.repr ==> n.loop == old(n.loop)
      decreases Rank(s)
    {
      hide Chunks.Mem, PoolsFine, HoldsAt, TakenOut, Nodes, PlaceNodes, Kept, One, Rank;
      ghost var m := chunks.Mem();
      HereFacts(m, p, s);
      if tc.loop {
        // only a destructor that frees its own chunk comes here
        assert false;
      }
      chunks.Unlink(tc, p, s);
      LooseHolds(m, chunks.Mem(), p, s);
      tc.loop := true;
      ghost var k := s.kids;
      while chunks.Child(tc) != null
        invariant HoldsAt(chunks.Mem(), Loose(tc), k) && HoldsAt(chunks.Mem(), p, s.rest) && PoolsFine()
        invariant Rank(k) <= Rank(s.kids) && Nodes(k) <= Nodes(s.kids) && tc in chunks.repr
        invariant chunks.Child(tc) == Head(k)
        invariant chunks.repr == old(chunks.repr) - (Nodes(s.kids) - Nodes(k))
        invariant held <= old(held)
        invariant Kept(m, chunks.Mem(), Nodes(s) + PlaceNodes(p))
        invariant forall n :: n in chunks.repr && n != tc ==> n.loop == old(n.loop)
        decreases Rank(k)
      {
        ghost var m1 := chunks.Mem();
        HereFacts(m1, Loose(tc), k);
        r := FreeAt(chunks.Child(tc), Loose(tc), k);
        OneLess(m, m1, chunks.Mem(), p, s, k);
        k := k.rest;
      }
      Gone(k);
      DropElsewhere(chunks.Mem(), p, s.rest, tc);
      KeptLess(m, chunks.Mem(), Nodes(s) + PlaceNodes(p), tc);
      Release(tc);
      r := 0;
    }

    /** talloc_free */
    method Free(ptr: Chunk?) returns (r: int)
      requires Valid() && (ptr != null ==> ptr in chunks.repr)
      modifies this`forest, this`held, chunks, held`count, held`members
      modifies chunks.repr`next, chunks.repr`prev, chunks.repr`parent, chunks.repr`child, chunks.repr`loop
      ensures Valid() && held <= old(held)
      ensures ptr == null ==> r == -1 && forest == old(forest)
      ensures ptr != null ==> r == 0 && forest == Pruned(old(forest), ptr)
    {
      hide Chunks.Mem, PoolsFine, HoldsAt, Nodes, PlaceNodes, Pruned, Kept, One;
      if ptr == null {
        return -1;
      }
      ghost var p, s := At(chunks.Mem(), forest, ptr);
      r := FreeAt(ptr, p, s);
      PrunedHolds(chunks.Mem(), forest, p, s);
      forest := Pruned(forest, ptr);
    }

    /** talloc_free_children; a pool with nothing left in it starts over. */
    method FreeChildren(ptr: Chunk?)
      requires Valid() && (ptr != null ==> ptr in chunks.repr)
      modifies this`forest, this`held, chunks, held`count, held`members, held`top
      modifies chunks.repr`next, chunks.repr`prev, chunks.repr`parent, chunks.repr`child, chunks.repr`loop
      ensures Valid() && held <= old(held)
      ensures forest == if ptr == null then old(forest) else Childless(old(forest), ptr)
      ensures ptr != null && ptr.isPool && ptr.members == {} ==> ptr.top == BASE
    {
      hide Chunks.Mem, PoolsFine, HoldsAt, Nodes, PlaceNodes, Childless, One, Plug;
      if ptr == null {
        return;
      }
      ghost var p, s := At(chunks.Mem(), forest, ptr);
      FreeBelow(ptr, p, s);
      ChildlessHolds(chunks.Mem(), forest, p, s);
      forest := Childless(forest, ptr);
      StartOver(ptr);
    }

    /** The loop over the children. */
    method FreeBelow(ptr: Chunk, ghost p: Place, ghost s: Kin)
      requires HoldsAt(chunks.Mem(), p, s) && s.Some? && s.chunk == ptr && PoolsFine() && Quiet()
      requires chunks.repr == Nodes(s) + PlaceNodes(p)
      modifies this`held, chunks, held`count, held`members
      modifies chunks.repr`next, chunks.repr`prev, chunks.repr`parent, chunks.repr`child, chunks.repr`loop
      ensures HoldsAt(chunks.Mem(), Below(ptr, s.size, s.rest, p), None) && PoolsFine() && Quiet() && held <= old(held)
      ensures chunks.repr <= old(chunks.repr)
      ensures chunks.repr == PlaceNodes(Below(ptr, s.size, s.rest, p)) && ptr in chunks.repr
    {
      hide Chunks.Mem, PoolsFine, HoldsAt, Nodes, PlaceNodes, Kept, One;
      ghost var k, q := s.kids, Below(ptr, s.size, s.rest, p);
      BelowHere(chunks.Mem(), p, s);
      BelowHolds(chunks.Mem(), q, k);
      while chunks.Child(ptr) != null
        invariant HoldsAt(chunks.Mem(), q, k) && PoolsFine() && held <= old(held) && ptr in chunks.repr
        invariant chunks.Child(ptr) == Head(k)
        invariant chunks.repr == Nodes(k) + PlaceNodes(q)
        invariant forall n :: n in chunks.repr ==> n in old(chunks.repr) && !n.loop
        decreases Rank(k)
      {
        HereFacts(chunks.Mem(), q, k);
        var r := FreeAt(chunks.Child(ptr), q, k);
        k := k.rest;
        BelowHolds(chunks.Mem(), q, k);
      }
      Gone(k);
    }

    method StartOver(ptr: Chunk)
      requires ptr in chunks.repr && PoolsFine()
      modifies held`top
      ensures PoolsFine() && chunks.Mem() == old(chunks.Mem())
      ensures ptr.isPool && ptr.members == {} ==> ptr.top == BASE
    {
      hide PoolsOk, Pools;
      Looked(ptr);
      if ptr.isPool {
        PoolHere(Pools(), chunks.repr, held, ptr);
        if ptr.count == 1 {
          Restart(ptr);
        }
      }
    }

    /** All of a pool's memory is free again. */
    method Restart(pool: Chunk)
      requires pool in chunks.repr && pool in held && PoolsFine() && pool.count == 1
      modifies pool`top
      ensures PoolsFine() && pool.top == BASE && chunks.Mem() == old(chunks.Mem())
    {
      hide PoolsOk;
      Reset(Pools(), chunks.repr, held, pool);
      ghost var d := Pools();
      pool.top := BASE;
      assert Pools() == d[pool := d[pool].(top := BASE)];
    }

    // -------------------------------------------------------------- sizes

    /** talloc_total_size of a chunk at some place; the loop flags are down again afterwards. */
    method TotalAt(tc: Chunk, ghost p: Place, ghost s: Kin) returns (total: nat)
      requires HoldsAt(chunks.Mem(), p, s) && s.Some? && s.chunk == tc
      requires forall n :: n in chunks.repr && n in Nodes(One(s)) ==> !n.loop
      modifies chunks.repr`loop
      ensures total == Total(One(s)) && chunks.Mem() == old(chunks.Mem())
      ensures forall n :: n in chunks.repr ==> n.loop == old(n.loop)
      decreases Rank(s)
    {
      hide Chunks.Mem, HoldsAt, Nodes, PlaceNodes, One, Rank, Total;
      ghost var m := chunks.Mem();
      HereFacts(m, p, s);
      OneTotal(s);
      if tc.loop {
        // only references lead back to a chunk whose sizes are being added up
        assert false;
      }
      tc.loop := true;
      ghost var k, q := s.kids, Below(tc, s.size, s.rest, p);
      BelowHere(m, p, s);
      FirstHere(m, p, s);
      total := chunks.Size(tc);
      var c := chunks.Child(tc);
      while c != null
        invariant HoldsAt(m, q, k) && chunks.Mem() == m && c == Head(k) && Owner(q) == tc && tc in chunks.repr
        invariant Rank(k) <= Rank(s.kids) && Nodes(k) <= Nodes(s.kids)
        invariant total + Total(k) == s.size + Total(s.kids)
        invariant tc.loop && forall n :: n in chunks.repr && n != tc ==> n.loop == old(n.loop)
        decreases Rank(k)
      {
        HereFacts(m, q, k);
        FirstHere(m, q, k);
        OneTotal(k);
        var t := TotalAt(c, q, k);
        total := total + t;
        c := chunks.Next(c);
        NextHere(m, q, k);
        q, k := Beside(k.chunk, k.size, k.kids, q), k.rest;
      }
      NoTotal(k);
      tc.loop := false;
    }

    /** talloc_total_size without leak reports: null has no size. */
    method TotalSize(ptr: Chunk?) returns (total: nat)
      requires Valid() && (ptr != null ==> ptr in chunks.repr)
      modifies chunks.repr`loop
      ensures Valid() && total == if ptr == null then 0 else SizeOf(forest, ptr)
    {
      hide Chunks.Mem, PoolsFine, HoldsAt, Nodes, PlaceNodes, One, Total, Subtree, Plug;
      if ptr == null {
        return 0;
      }
      ghost var p, s := At(chunks.Mem(), forest, ptr);
      SubtreeHere(chunks.Mem(), forest, p, s);
      total := TotalAt(ptr, p, s);
    }

    // -------------------------------------------------------------- stealing

    /** _talloc_steal, without a null context; the new owner is not below the chunk. */
    method Steal(newCtx: Chunk?, ptr: Chunk?) returns (r: Chunk?)
      requires Valid() && (ptr != null ==> ptr in chunks.repr) && (newCtx != null ==> newCtx in chunks.repr)
      requires ptr != null && newCtx != null && newCtx != ptr ==> !Under(forest, newCtx, ptr)
      modifies this`forest, chunks.repr`next, chunks.repr`prev, chunks.repr`parent, chunks.repr`child
      ensures Valid() && r == ptr
      ensures ptr == null || newCtx == ptr ==> forest == old(forest)
      ensures ptr != null && newCtx == null ==> forest == Freestanding(old(forest), ptr)
      ensures ptr != null && newCtx != null && newCtx != ptr ==> Distinct(old(forest)) && ptr in Nodes(old(forest))
      ensures ptr != null && newCtx != null && newCtx != ptr ==> forest == Moved(old(forest), ptr, newCtx)
    {
      hide Chunks.Mem, PoolsFine, HoldsAt, Nodes, PlaceNodes, One, Plug, Subtree, Pruned, Grafted, Moved, Freestanding,
        TakenOut, Kept;
      if ptr == null {
        return null;
      }
      ghost var p, s := At(chunks.Mem(), forest, ptr);
      if newCtx == null {
        StandAlone(ptr, p, s);
        forest := Freestanding(forest, ptr);
        return ptr;
      }
      if ptr == newCtx || chunks.Parent(ptr) == newCtx {
        if ptr != newCtx {
          FirstChildStays(chunks.Mem(), forest, p, s, newCtx);
        }
        return ptr;
      }
      SubtreeHere(chunks.Mem(), forest, p, s);
      MoveTo(newCtx, ptr, p, s);
      forest := Moved(forest, ptr, newCtx);
      return ptr;
    }

    /** Stealing to no owner. */
    method StandAlone(ptr: Chunk, ghost p: Place, ghost s: Kin)
      requires HoldsAt(chunks.Mem(), p, s) && s.Some? && s.chunk == ptr && Plug(p, s) == forest && Outermost(p) == Roots
      requires Distinct(forest) && ptr in Nodes(forest)
      modifies chunks.repr`next, chunks.repr`prev, chunks.repr`parent, chunks.repr`child
      ensures HoldsAt(chunks.Mem(), Roots, Freestanding(forest, ptr))
        && Nodes(Freestanding(forest, ptr)) == Nodes(forest)
    {
      hide Chunks.Mem, HoldsAt, Nodes, PlaceNodes, One, Plug, Subtree, Pruned, TakenOut, Kept, Freestanding;
      ghost var m := chunks.Mem();
      SubtreeHere(m, forest, p, s);
      chunks.Unlink(ptr, p, s);
      LooseHolds(m, chunks.Mem(), p, s);
      PrunedHolds(chunks.Mem(), forest, p, s);
      m := chunks.Mem();
      chunks.SetParent(ptr, null);
      chunks.SetNext(ptr, null);
      chunks.SetPrev(ptr, null);
      assert chunks.Mem() == m[ptr := Links(null, null, null, Head(s.kids), s.size)];
      FreestandingHolds(m, chunks.Mem(), forest, s);
    }

    /** The list surgery of a steal. */
    method MoveTo(newCtx: Chunk, ptr: Chunk, ghost p: Place, ghost s: Kin)
      requires HoldsAt(chunks.Mem(), p, s) && s.Some? && s.chunk == ptr && Plug(p, s) == forest && Outermost(p) == Roots
      requires Distinct(forest) && newCtx in Nodes(forest) && newCtx !in Nodes(One(s)) && ptr in Nodes(forest)
      modifies chunks.repr`next, chunks.repr`prev, chunks.repr`parent, chunks.repr`child
      ensures HoldsAt(chunks.Mem(), Roots, Moved(forest, ptr, newCtx))
        && Nodes(Moved(forest, ptr, newCtx)) == Nodes(forest)
    {
      hide Chunks.Mem, HoldsAt, Nodes, PlaceNodes, One, Plug, Subtree, Pruned, Grafted, TakenOut, Kept, Puttable,
        Putting;
      ghost var m := chunks.Mem();
      SubtreeHere(m, forest, p, s);
      SubtreeNodes(forest, ptr);
      OneIs(s);
      chunks.Unlink(ptr, p, s);
      LooseHolds(m, chunks.Mem(), p, s);
      PrunedHolds(chunks.Mem(), forest, p, s);
      m := chunks.Mem();
      GraftReady(m, Pruned(forest, ptr), newCtx, ptr);
      GraftedHolds(m, Pruned(forest, ptr), newCtx, One(s));
      chunks.LinkMoved(ptr, newCtx);
    }

    // -------------------------------------------------------------- allocating

    /** talloc_alloc_pool: the next n bytes of the pool the parent is or belongs to, if there are so many. */
    method AllocPool(parent: Chunk, n: nat) returns (r: Chunk?)
      requires parent in chunks.repr && PoolsFine() && n >= HEADER
      modifies chunks, held`top, held`count, held`members
      ensures PoolsFine() && (old(Quiet()) ==> Quiet())
      ensures r == null ==>
        && chunks.repr == old(chunks.repr) && chunks.Mem() == old(chunks.Mem())
        && Pools() == old(Pools())
      ensures r == null <==> !Fits(old(Pools()), parent, n)
      ensures r != null ==> fresh(r) && !r.loop && chunks.repr == old(chunks.repr) + {r}
      ensures r != null ==> r.inPool && !r.isPool && r.size == n - HEADER && r.room == Aligned(n) - HEADER
      ensures r != null ==> chunks.Mem() == old(chunks.Mem())[r := Links(null, null, null, null, n - HEADER)]
      ensures r != null ==> PoolOf(old(Pools()), parent) != null && PoolOf(old(Pools()), parent) in old(Pools())
      ensures r != null ==> Pools() == TakenFrom(old(Pools()), PoolOf(old(Pools()), parent), r, n - HEADER)
    {
      hide PoolsOk, PoolOf, TakenFrom, Pools, Chunks.Mem, Aligned;
      ghost var d := Pools();
      PoolOfHeld(d, chunks.repr, held, parent);
      Looked(parent);
      var pool: Chunk? := if parent.isPool then parent else if parent.inPool then parent.pool else null;
      if pool == null {
        return null;
      }
      Looked(pool);
      var left := HEADER + pool.size - pool.top;
      if left < Aligned(n) {
        return null;
      }
      r := TakeFrom(pool, n);
      Taken(d, old(chunks.repr), held, pool, r, n - HEADER);
    }

    /** The chunk header at the end of what a pool has given out. */
    method TakeFrom(pool: Chunk, n: nat) returns (r: Chunk)
      requires pool in held && n >= HEADER
      modifies chunks, pool`top, pool`count, pool`members
      ensures fresh(r) && !r.loop && chunks.repr == old(chunks.repr) + {r}
      ensures r.inPool && !r.isPool && r.size == n - HEADER && r.room == Aligned(n) - HEADER
      ensures chunks.Mem() == old(chunks.Mem())[r := Links(null, null, null, null, n - HEADER)]
      ensures pool in old(Pools()) && Pools() == TakenFrom(old(Pools()), pool, r, n - HEADER)
    {
      hide Pools, TakenFrom, Chunks.Mem, GivenOut;
      ghost var d := Pools();
      r := new Chunk.Carved(n - HEADER, pool, pool.top);
      Looked(pool);
      GiveOut(pool, n, r);
      Include(r);
      TakenInSteps(d, pool, r, n - HEADER);
    }

    /** Moves the end of the given out area, and counts the object. */
    method GiveOut(pool: Chunk, n: nat, r: Chunk)
      requires pool in held
      modifies pool`top, pool`count, pool`members
      ensures Pools() == old(Pools())[pool := GivenOut(old(Pools())[pool], r, n)]
      ensures chunks.Mem() == old(chunks.Mem())
    {
      hide Chunks.Mem;
      pool.top := pool.top + Aligned(n);
      pool.count := pool.count + 1;
      pool.members := pool.members + {r};
    }

    /** A new chunk belongs to the allocated ones. */
    ghost method Include(r: Chunk)
      requires r !in chunks.repr && r !in held
      modifies chunks
      ensures chunks.repr == old(chunks.repr) + {r}
      ensures chunks.Mem() == old(chunks.Mem())[r := Links(r.next, r.prev, r.parent, r.child, r.size)]
      ensures Pools() == old(Pools())[r := Info(r.isPool, r.inPool, r.pool, r.at, r.top, r.count, r.size, r.members)]
    {
      chunks.Enter(r);
    }

    /** A chunk of its own from malloc. */
    method Malloc(size: nat) returns (r: Chunk)
      modifies chunks
      ensures fresh(r) && !r.loop && !r.isPool && !r.inPool && r.size == size == r.room
      ensures chunks.repr == old(chunks.repr) + {r}
      ensures (old(PoolsFine()) ==> PoolsFine()) && (old(Quiet()) ==> Quiet()) && (old(Granted()) ==> Granted())
      ensures chunks.Mem() == old(chunks.Mem())[r := Links(null, null, null, null, size)]
      ensures Pools() == old(Pools())[r := Info(false, false, null, r.at, r.top, r.count, size, {})]
    {
      hide PoolsOk, Pools, Chunks.Mem;
      ghost var d := Pools();
      r := new Chunk(size);
      if PoolsFine() {
        Malloced(d, chunks.repr, held, r, Info(false, false, null, r.at, r.top, r.count, size, {}));
      }
      Include(r);
    }

    /** Whether a request can be met: from the context's pool, or else from malloc, which may have no memory. */
    ghost predicate Enough(context: Chunk?, size: nat, memory: bool)
      requires context != null ==> context in chunks.repr
      reads this`held, chunks
      reads chunks.repr`isPool, chunks.repr`inPool, chunks.repr`pool, chunks.repr`at, chunks.repr`top, chunks.repr`count
      reads chunks.repr`size, chunks.repr`members
      reads held`isPool, held`inPool, held`pool, held`at, held`top, held`count, held`size, held`members
    {
      memory || (context != null && Fits(Pools(), context, HEADER + size))
    }

    /** A new chunk header from the context's pool, or else from malloc, not linked yet. */
    method Obtain(context: Chunk?, size: nat, memory: bool) returns (r: Chunk?)
      requires PoolsFine() && Quiet() && (context != null ==> context in chunks.repr)
      modifies chunks, held`top, held`count, held`members
      ensures PoolsFine() && Quiet() && (old(Granted()) ==> Granted())
      ensures r == null <==> !old(Enough(context, size, memory))
      ensures r == null ==>
        && chunks.repr == old(chunks.repr) && chunks.Mem() == old(chunks.Mem())
        && Pools() == old(Pools())
      ensures r != null ==> fresh(r) && chunks.repr == old(chunks.repr) + {r} && !r.isPool && r.size == size <= r.room
      ensures r != null ==> chunks.Mem() == old(chunks.Mem())[r := Links(null, null, null, null, size)]
      ensures r != null ==> (r.inPool <==> context != null && Fits(old(Pools()), context, HEADER + size))
      ensures r != null && r.inPool ==> PoolOf(old(Pools()), context) in old(Pools())
      ensures r != null && r.inPool ==> Pools() == TakenFrom(old(Pools()), PoolOf(old(Pools()), context), r, size)
    {
      hide Chunks.Mem, PoolsFine, Pools, Fits, PoolOf, TakenFrom;
      r := null;
      if context != null {
        r := AllocPool(context, HEADER + size);
      }
      if r == null && memory {
        r := Malloc(size);
      }
    }

    /** __talloc, without a null context; memory says whether malloc has any left. */
    method Alloc(context: Chunk?, size: nat, memory: bool) returns (r: Chunk?)
      requires Valid() && (context != null ==> context in chunks.repr)
      modifies this`forest, chunks, held`top, held`count, held`members
      modifies chunks.repr`next, chunks.repr`prev, chunks.repr`parent, chunks.repr`child
      ensures Valid() && (r == null <==> size >= MAX_SIZE || !old(Enough(context, size, memory)))
      // the same on sizes: outside of pools malloc decides, otherwise the rest of the pool may do
      ensures (context == null || !(old(context.isPool) || old(context.inPool))) ==>
        (r == null <==> size >= MAX_SIZE || !memory)
      ensures context != null && old(context.isPool) ==>
        (r == null <==>
           size >= MAX_SIZE || (!memory && old(context.top) + Aligned(HEADER + size) > HEADER + old(context.size)))
      ensures context != null && old(context.inPool) ==>
        && old(context.pool) != null
        && (r == null <==>
              || size >= MAX_SIZE
              || (!memory && old(context.pool.top) + Aligned(HEADER + size) > HEADER + old(context.pool.size)))
      ensures r == null ==> forest == old(forest) && Pools() == old(Pools())
      ensures r != null ==> fresh(r) && r in chunks.repr && forest == Added(old(forest), context, r, size)
      ensures r != null ==> !r.isPool && r.size == size
      ensures r != null ==> (r.inPool <==> context != null && Fits(old(Pools()), context, HEADER + size))
      ensures r != null && r.inPool ==> PoolOf(old(Pools()), context) in old(Pools())
      ensures r != null && r.inPool ==> Pools() == TakenFrom(old(Pools()), PoolOf(old(Pools()), context), r, size)
    {
      hide Chunks.Mem, PoolsFine, Quiet, Granted, HoldsAt, Nodes, Pools, Added, Fits, PoolOf, TakenFrom, Enough;
      if context != null { RoomLeft(context, size); }
      EnoughIs(context, size, memory);
      if size >= MAX_SIZE {
        return null;
      }
      ghost var m := chunks.Mem();
      r := Obtain(context, size, memory);
      if r == null {
        return;
      }
      NewHolds(m, forest, r, size);
      Attach(r, context, size);
    }

    /** Links a new chunk. */
    method Attach(tc: Chunk, context: Chunk?, ghost size: nat)
      requires HoldsAt(chunks.Mem(), Roots, forest) && HoldsAt(chunks.Mem(), Roots, Added(forest, null, tc, size))
      requires tc in chunks.repr && chunks.Mem()[tc] == Links(null, null, null, null, size) && tc !in Nodes(forest)
      requires context != null ==> context in Nodes(forest)
      requires Nodes(Added(forest, null, tc, size)) == Nodes(forest) + {tc}
      modifies this`forest, chunks.repr`next, chunks.repr`prev, chunks.repr`parent, chunks.repr`child
      ensures HoldsAt(chunks.Mem(), Roots, forest) && forest == Added(old(forest), context, tc, size)
      ensures Nodes(forest) == Nodes(old(forest)) + {tc}
    {
      hide Chunks.Mem, HoldsAt, Nodes, Added, Puttable, Putting;
      if context != null {
        AddedHolds(chunks.Mem(), forest, context, tc, size);
        chunks.LinkNew(tc, context);
      }
      forest := Added(forest, context, tc, size);
    }

    /**
      talloc_pool. A pool that finds room in the pool of its context loses the link to that pool,
      and with it the rules are broken; all other pools are fine.
     */
    method MakePool(context: Chunk?, size: nat, memory: bool) returns (r: Chunk?)
      requires Valid() && (context != null ==> context in chunks.repr)
      modifies this`forest, this`held, chunks, held`top, held`count, held`members
      modifies chunks.repr`next, chunks.repr`prev, chunks.repr`parent, chunks.repr`child
      ensures Is(forest) && Quiet()
        && (r == null <==> size + POOL_HEADER >= MAX_SIZE || !old(Enough(context, size + POOL_HEADER, memory)))
      ensures PoolsFine()
        <==> !(r != null && context != null && Fits(old(Pools()), context, HEADER + size + POOL_HEADER))
      ensures r == null ==> forest == old(forest) && held == old(held)
      ensures r != null ==> fresh(r) && r in chunks.repr && forest == Added(old(forest), context, r, size + POOL_HEADER)
      ensures r != null ==> held == old(held) + {r} && r.isPool && r.count == 1 && r.members == {} && r.top == BASE
      ensures r != null ==> r.size == size + POOL_HEADER
    {
      hide Chunks.Mem, PoolsFine, Quiet, Is, Pools, Added, TakenFrom, Fits, Enough;
      r := Alloc(context, size + POOL_HEADER, memory);
      if r != null {
        if r.inPool {
          TurnNested(r);
        } else {
          NotHeldYet(r);
          TurnPool(r);
        }
      }
    }

    lemma NotHeldYet(r: Chunk)
      requires PoolsFine() && r in chunks.repr && !r.isPool
      ensures r !in held
    {
      forall p | p in held ensures p.isPool {
        assert PoolOk(Pools(), chunks.repr, p);
      }
    }

    /** A new chunk becomes a pool. */
    method TurnPool(r: Chunk)
      requires PoolsFine() && r in chunks.repr && r !in held && !r.inPool && r.size >= POOL_HEADER
      modifies this`held, r`isPool, r`top, r`count, r`members
      ensures PoolsFine() && held == old(held) + {r} && r.isPool && r.count == 1 && r.members == {} && r.top == BASE
    {
      hide PoolsOk;
      Looked(r);
      ghost var d := Pools();
      MadePool(d, chunks.repr, held, r);
      r.isPool := true;
      r.top := BASE;
      r.count := 1;
      r.members := {};
      held := held + {r};
      assert Pools() == d[r := d[r].(isPool := true, top := BASE, count := 1, members := {})];
    }

    /** A new member of a pool becomes a pool: its field for the pool is overwritten. */
    method TurnNested(r: Chunk)
      requires r in chunks.repr && r.inPool
      modifies this`held, r`isPool, r`top, r`count, r`members, r`pool
      ensures !PoolsFine() && held == old(held) + {r} && r.isPool && r.count == 1 && r.members == {} && r.top == BASE
    {
      r.isPool := true;
      r.pool := null;
      r.top := BASE;
      r.count := 1;
      r.members := {};
      held := held + {r};
      Looked(r);
      assert !ChunkOk(Pools(), chunks.repr, held, r);
    }

    // -------------------------------------------------------------- reallocating

    /**
      Whether reallocating a chunk to a size breaks the rules of the pool it is in: it has to leave,
      and either it is the last of a freed pool, or there is no memory, and it stays uncounted.
     */
    ghost predicate Strands(tc: Chunk, size: nat, memory: bool)
      requires tc in chunks.repr
      reads this`held, chunks
      reads chunks.repr`isPool, chunks.repr`inPool, chunks.repr`pool, chunks.repr`at, chunks.repr`top, chunks.repr`count
      reads chunks.repr`size, chunks.repr`members
      reads held`isPool, held`inPool, held`pool, held`at, held`top, held`count, held`size, held`members
    {
      tc.inPool && !Fits(Pools(), tc, HEADER + size) && (memory ==> LastOfFreed(Pools(), chunks.repr, tc))
    }

    /**
      A header was moved: the copy of its links is filled in and made known to its neighbours. Its
      size is the new one already.
     */
    method Takeover(tc: Chunk, r: Chunk, ghost m: Memory, ghost p: Place, ghost s: Kin)
      requires HoldsAt(m, p, s) && s.Some? && s.chunk == tc && Plug(p, s) == forest && Outermost(p) == Roots
        && Distinct(forest)
      requires tc in chunks.repr && r in chunks.repr && r !in m && r !in Nodes(forest) && tc in Nodes(forest) && tc in m
      requires chunks.Mem() == m[r := Links(null, null, null, null, r.size)]
      modifies this`forest, chunks.repr`next, chunks.repr`prev, chunks.repr`parent, chunks.repr`child
      ensures forest == Swapped(old(forest), tc, r, r.size)
      ensures HoldsAt(chunks.Mem() - {tc}, Roots, forest) && Nodes(forest) == Nodes(old(forest)) - {tc} + {r}
      ensures Pools() == old(Pools()) && PoolsFine() == old(PoolsFine()) && Quiet() == old(Quiet())
    {
      hide Chunks.Mem, PoolsFine, Quiet, Pools, HoldsAt, Nodes, Swapped, Distinct, Plug, Retargeting, Linkable,
        ChildApart;
      SwappedHolds(m, forest, p, s, r, r.size);
      assert chunks.Mem()[r := chunks.Mem()[tc].(size := r.size)] == m[r := m[tc].(size := r.size)];
      chunks.Replace(tc, r);
      forest := Swapped(forest, tc, r, r.size);
    }

    /** realloc of a chunk outside of pools when the block moves. */
    method MovePlain(tc: Chunk, size: nat) returns (r: Chunk)
      requires Valid() && tc in chunks.repr && !tc.isPool && !tc.inPool
      modifies this`forest, this`held, chunks, held`count, held`members
      modifies chunks.repr`next, chunks.repr`prev, chunks.repr`parent, chunks.repr`child
      ensures Valid() && fresh(r) && r.size == size && forest == Swapped(old(forest), tc, r, size) && held <= old(held)
    {
      hide Chunks.Mem, PoolsFine, Quiet, Granted, HoldsAt, Nodes, Pools, Swapped, Distinct, Plug;
      ghost var m := chunks.Mem();
      ghost var p, s := At(m, forest, tc);
      r := Malloc(size);
      Takeover(tc, r, m, p, s);
      Release(tc);
    }

    /** The pool's part in moving a member: room for it in its pool or from malloc, and one object less. */
    method Vacate(tc: Chunk, size: nat, memory: bool) returns (r: Chunk?)
      requires PoolsFine() && Quiet() && tc in chunks.repr && tc.inPool
      modifies chunks, held`top, held`count, held`members
      ensures Quiet() && (old(Granted()) ==> Granted())
      ensures r == null <==> !memory && !Fits(old(Pools()), tc, HEADER + size)
      ensures r == null ==> chunks.repr == old(chunks.repr) && chunks.Mem() == old(chunks.Mem()) && !PoolsFine()
      ensures r != null ==> fresh(r) && r.size == size <= r.room && chunks.repr == old(chunks.repr) + {r}
      ensures r != null ==> chunks.Mem() == old(chunks.Mem())[r := Links(null, null, null, null, size)]
      ensures r != null ==> (r.inPool <==> Fits(old(Pools()), tc, HEADER + size))
      ensures r != null ==> (PoolsOk(Pools(), chunks.repr - {tc}, held) <==> !old(Strands(tc, size, memory)))
    {
      hide PoolsOk, Pools, Chunks.Mem, Quiet, TakenFrom, PoolOf, Fits, LastOfFreed;
      ghost var d, live := Pools(), chunks.repr;
      Looked(tc);
      PoolOfHeld(d, live, held, tc);
      var fitting := AllocPool(tc, size + HEADER);
      if fitting != null {
        r := fitting;
        VacateIn(tc, fitting, d, live, size);
      } else if memory {
        r := VacateOut(tc, size);
      } else {
        Uncount(tc);
        r := null;
      }
    }

    /** The object count goes down before malloc is asked, and stays down when there is no memory. */
    method Uncount(tc: Chunk)
      requires PoolsFine() && tc in chunks.repr && tc.inPool
      modifies held`count
      ensures !PoolsFine() && chunks.Mem() == old(chunks.Mem())
    {
      hide Chunks.Mem, Pools;
      ghost var d := Pools();
      Looked(tc);
      LastCounts(d, chunks.repr, held, tc);
      assert PoolOk(d, chunks.repr, tc.pool);
      Looked(tc.pool);
      LowerCount(tc.pool);
      assert !PoolOk(Pools(), chunks.repr, tc.pool);
    }

    /** The object count alone goes down. */
    method LowerCount(pool: Chunk)
      requires pool in chunks.repr + held && pool.count > 0
      modifies pool`count
      ensures Pools() == old(Pools())[pool := old(Pools())[pool].(count := old(pool.count) - 1)]
      ensures chunks.Mem() == old(chunks.Mem())
    {
      hide Chunks.Mem;
      pool.count := pool.count - 1;
    }

    /** No room in the pool: the chunk moves out of it. */
    method VacateOut(tc: Chunk, size: nat) returns (r: Chunk)
      requires PoolsFine() && Quiet() && tc in chunks.repr && tc.inPool
      modifies chunks, held`count, held`members
      ensures Quiet() && fresh(r) && r.size == size <= r.room && !r.inPool && chunks.repr == old(chunks.repr) + {r}
      ensures chunks.Mem() == old(chunks.Mem())[r := Links(null, null, null, null, size)]
      ensures PoolsOk(Pools(), chunks.repr - {tc}, held) <==> !LastOfFreed(old(Pools()), old(chunks.repr), tc)
    {
      hide PoolsOk, Pools, Chunks.Mem, Quiet, Fewer, PoolOf, LastOfFreed;
      ghost var d, live := Pools(), chunks.repr;
      Looked(tc);
      LastCounts(d, live, held, tc);
      Looked(tc.pool);
      CountDown(tc.pool, tc);
      r := Malloc(size);
      MovedOutRight(d, live, held, tc, r, Info(false, false, null, r.at, r.top, r.count, size, {}));
      assert chunks.repr - {tc} == live - {tc} + {r};
    }

    /** The chunk has a new place in its pool, and leaves the old one. */
    method VacateIn(tc: Chunk, r: Chunk, ghost d: Data, ghost live: set<Chunk>, size: nat)
      requires PoolsOk(d, live, held) && tc in live && tc in d && d[tc].inPool && PoolOf(d, tc) != null
        && PoolOf(d, tc) in d
      requires tc.pool == PoolOf(d, tc) && tc.pool in held
      requires r !in live && r !in d && r !in held && chunks.repr == live + {r} && PoolsFine()
      requires Pools() == TakenFrom(d, PoolOf(d, tc), r, size)
      modifies held`count, held`members
      ensures PoolsOk(Pools(), chunks.repr - {tc}, held) && chunks.Mem() == old(chunks.Mem())
    {
      hide PoolsOk, Pools, Chunks.Mem, TakenFrom, Fewer, PoolOf, HeldAfter;
      LastCounts(d, live, held, tc);
      TakenCounts(d, live, held, tc, r, size);
      Looked(tc.pool);
      CountDown(tc.pool, tc);
      Freed(TakenFrom(d, tc.pool, r, size), live + {r}, held, tc);
    }

    /** Moving a member of a pool, within its pool or out of it. */
    method MoveMember(tc: Chunk, size: nat, memory: bool) returns (r: Chunk?)
      requires Valid() && tc in chunks.repr && tc.inPool
      modifies this`forest, this`held, chunks, held`top, held`count, held`members
      modifies chunks.repr`next, chunks.repr`prev, chunks.repr`parent, chunks.repr`child
      ensures Is(forest) && Quiet() && (r == null <==> !memory && !Fits(old(Pools()), tc, HEADER + size))
      ensures r == null ==> forest == old(forest)
      ensures r != null ==> fresh(r) && r.size == size && forest == Swapped(old(forest), tc, r, size)
      ensures r != null ==> (r.inPool <==> Fits(old(Pools()), tc, HEADER + size))
      ensures PoolsFine() <==> !old(Strands(tc, size, memory))
      ensures held == old(held)
    {
      hide Chunks.Mem, PoolsFine, PoolsOk, Quiet, Granted, HoldsAt, Nodes, Pools, Swapped, Distinct, Plug, Fits,
        LastOfFreed;
      ghost var m := chunks.Mem();
      ghost var p, s := At(m, forest, tc);
      r := Vacate(tc, size, memory);
      if r != null {
        Takeover(tc, r, m, p, s);
        Discard(tc);
      }
    }

    /** The old header of a chunk that was moved. */
    ghost method Discard(tc: Chunk)
      requires tc in chunks.repr && Quiet()
      modifies this`held, chunks
      ensures held == old(held) && Quiet() && (old(Granted()) ==> Granted())
      ensures chunks.repr == old(chunks.repr) - {tc} && chunks.Mem() == old(chunks.Mem()) - {tc}
      ensures PoolsFine() <==> PoolsOk(old(Pools()), chunks.repr, held)
    {
      hide Chunks.Mem, PoolsOk, Quiet, Pools;
      ghost var d := Pools();
      Forget(tc, null);
      if PoolsFine() {
        Widened(d, Pools(), chunks.repr, held);
      }
      if PoolsOk(d, chunks.repr, held) {
        Restricted(d, Pools(), chunks.repr, held);
      }
    }

    /** Resizing a chunk where it is; a member of a pool only shrinks. */
    method Resize(tc: Chunk, size: nat)
      requires Valid() && tc in chunks.repr && !tc.isPool && (tc.inPool ==> size <= tc.size) && size <= tc.room
      modifies this`forest, tc`size
      ensures Valid() && forest == Swapped(old(forest), tc, tc, size)
    {
      hide Chunks.Mem, PoolsFine, Quiet, HoldsAt, Nodes, Swapped;
      ResizedHolds(chunks.Mem(), forest, tc, size);
      ChangeSize(tc, size);
      forest := Swapped(forest, tc, tc, size);
    }

    /** realloc of a chunk outside of pools when the block stays where it is and gets as much as asked for. */
    method Regrant(tc: Chunk, size: nat)
      requires Valid() && tc in chunks.repr && !tc.isPool && !tc.inPool
      modifies this`forest, tc`size, tc`room
      ensures Valid() && forest == Swapped(old(forest), tc, tc, size) && tc.room == size
    {
      hide Chunks.Mem, PoolsFine, Quiet, HoldsAt, Nodes, Swapped;
      ResizedHolds(chunks.Mem(), forest, tc, size);
      ChangeSize(tc, size);
      tc.room := size;
      forest := Swapped(forest, tc, tc, size);
    }

    method ChangeSize(tc: Chunk, size: nat)
      requires PoolsFine() && tc in chunks.repr && !tc.isPool && (tc.inPool ==> size <= tc.size)
      modifies tc`size
      ensures PoolsFine() && Quiet() == old(Quiet()) && tc.size == size
      ensures chunks.Mem() == old(chunks.Mem())[tc := old(chunks.Mem())[tc].(size := size)]
    {
      hide Chunks.Mem, PoolsOk, Quiet;
      Looked(tc);
      Resized(Pools(), chunks.repr, held, tc, size);
      ghost var d := Pools();
      chunks.SetSize(tc, size);
      assert tc.size == chunks.Size(tc);
      assert Pools() == d[tc := d[tc].(size := size)];
    }

    /**
      _talloc_realloc; memory says whether there is any, moves whether realloc moves a block. The
      rules of pools are kept with two exceptions: the last chunk of a pool that was freed moves out
      of it, and nobody gives the pool's memory back; or a member has to move out of its pool and
      there is no memory, so that it stays but is counted no more.
     */
    method Realloc(context: Chunk?, ptr: Chunk?, size: nat, memory: bool, moves: bool) returns (r: Chunk?)
      requires Valid() && (context != null ==> context in chunks.repr) && (ptr != null ==> ptr in chunks.repr)
      modifies this`forest, this`held, chunks, held`top, held`count, held`members
      modifies chunks.repr`next, chunks.repr`prev, chunks.repr`parent, chunks.repr`child, chunks.repr`loop,
        chunks.repr`size, chunks.repr`room
      ensures Is(forest) && Quiet()
      ensures PoolsFine() <==> !(ptr != null && old(Leaves(ptr, size)) && old(Strands(ptr, size, memory)))
      ensures size == 0 ==> r == null && forest == if ptr == null then old(forest) else Pruned(old(forest), ptr)
      ensures size > 0 ==> (r == null <==> old(Refused(context, ptr, size, memory)))
      ensures size > 0 && r == null ==> forest == old(forest)
      ensures r != null && ptr == null ==> fresh(r) && forest == Added(old(forest), context, r, size)
      ensures r != null && ptr != null ==> forest == Swapped(old(forest), ptr, r, size)
      ensures r != null && ptr != null ==>
        if old(Leaves(ptr, size)) && (old(ptr.inPool) || moves) then fresh(r) else r == ptr
      // the same on sizes: what needs memory, what stays, and what moves
      ensures ptr != null && 0 < size < MAX_SIZE && !old(ptr.isPool) ==>
        if size < old(ptr.size) < size + 1024 then r == ptr && ptr.room == old(ptr.room)
        else if old(ptr.inPool) then old(ptr.pool) != null && (r == null || fresh(r))
          && (r == null <==> !memory && old(HEADER + ptr.pool.size) < old(ptr.pool.top) + Aligned(HEADER + size))
        else if !memory then r == null
        else if moves then fresh(r)
        else r == ptr && ptr.room == size
      ensures ptr != null && !memory && r == ptr ==> ptr.room == old(ptr.room)
      ensures r != null && ptr != null && old(Leaves(ptr, size)) && old(ptr.inPool) ==>
        (r.inPool <==> old(Fits(Pools(), ptr, HEADER + size))) && held == old(held)
    {
      hide Chunks.Mem, HoldsAt, Nodes, Pools, PoolsOk, Swapped, Pruned, Added, Strands, Fits;
      if size == 0 {
        var _ := Free(ptr);
        return null;
      }
      if size >= MAX_SIZE {
        return null;
      }
      if ptr == null {
        r := Alloc(context, size, memory);
        return;
      }
      if ptr.isPool {
        return null;
      }
      // less than 1k to gain
      if size < ptr.size && ptr.size - size < 1024 {
        Resize(ptr, size);
        return ptr;
      }
      if ptr.inPool {
        RoomLeft(ptr, size);
        r := MoveMember(ptr, size, memory);
        return;
      }
      PlainFacts(ptr, size, memory);
      if !memory {
        return null;
      }
      if moves {
        r := MovePlain(ptr, size);
      } else {
        Regrant(ptr, size);
        r := ptr;
      }
    }

    /** Whether reallocating a chunk to a size asks for memory. */
    ghost predicate Leaves(ptr: Chunk, size: nat)
      reads ptr
    {
      0 < size < MAX_SIZE && !ptr.isPool && !(size < ptr.size && ptr.size - size < 1024)
    }

    /** Whether a reallocation to a size that is not 0 gives nothing. */
    ghost predicate Refused(context: Chunk?, ptr: Chunk?, size: nat, memory: bool)
      requires (context != null ==> context in chunks.repr) && (ptr != null ==> ptr in chunks.repr)
      reads this`held, chunks
      reads chunks.repr`isPool, chunks.repr`inPool, chunks.repr`pool, chunks.repr`at, chunks.repr`top, chunks.repr`count
      reads chunks.repr`size, chunks.repr`members
      reads held`isPool, held`inPool, held`pool, held`at, held`top, held`count, held`size, held`members
      reads ptr
    {
      || size >= MAX_SIZE
      || (if ptr == null then !Enough(context, size, memory)
          else ptr.isPool || (Leaves(ptr, size) && !Enough(ptr, size, memory)))
    }

    /** Something fits into a pool if the rest of the pool is large enough. */
    lemma RoomLeft(tc: Chunk, size: nat)
      requires PoolsFine() && tc in chunks.repr
      ensures tc.inPool ==> tc.pool != null && !tc.isPool
      ensures tc.inPool ==>
        (Fits(Pools(), tc, HEADER + size) <==> tc.pool.top + Aligned(HEADER + size) <= HEADER + tc.pool.size)
      ensures tc.isPool ==> (Fits(Pools(), tc, HEADER + size) <==> tc.top + Aligned(HEADER + size) <= HEADER + tc.size)
      ensures !tc.isPool && !tc.inPool ==> !Fits(Pools(), tc, HEADER + size)
    {
      hide Pools, Aligned;
      Looked(tc);
      PoolOfHeld(Pools(), chunks.repr, held, tc);
      assert ChunkOk(Pools(), chunks.repr, held, tc);
      if tc.inPool { Looked(tc.pool); }
    }

    lemma EnoughIs(context: Chunk?, size: nat, memory: bool)
      requires context != null ==> context in chunks.repr
      ensures Enough(context, size, memory) <==>
        memory || (context != null && Fits(Pools(), context, HEADER + size))
    {}

    lemma PlainFacts(tc: Chunk, size: nat, memory: bool)
      requires tc in chunks.repr && !tc.inPool && !tc.isPool
      ensures !Strands(tc, size, memory) && (Enough(tc, size, memory) <==> memory)
    {
      Looked(tc);
    }

    lemma Looked(c: Chunk)
      requires c in chunks.repr + held
      ensures c in Pools() && Pools()[c] == Info(c.isPool, c.inPool, c.pool, c.at, c.top, c.count, c.size, c.members)
      ensures PoolOf(Pools(), c) == if c.isPool then c else if c.inPool then c.pool else null
    {}
  }

  // ---------------------------------------------------------------- a pool that leaks

  const ROOM: nat := 216

  lemma PoolAlone(pool: Chunk)
    ensures Added(None, null, pool, ROOM) == Some(pool, ROOM, None, None)
    ensures Nodes(Some(pool, ROOM, None, None)) == {pool}
  {}

  lemma PoolAndMember(pool: Chunk, c: Chunk)
    requires pool != c
    ensures Added(Some(pool, ROOM, None, None), pool, c, 10) == Some(pool, ROOM, Some(c, 10, None, None), None)
    ensures Nodes(Some(pool, ROOM, Some(c, 10, None, None), None)) == {pool, c}
    ensures Distinct(Some(pool, ROOM, Some(c, 10, None, None), None))
    ensures Freestanding(Some(pool, ROOM, Some(c, 10, None, None), None), c)
      == Some(c, 10, None, Some(pool, ROOM, None, None))
    ensures Nodes(Some(c, 10, None, Some(pool, ROOM, None, None))) == {pool, c}
    ensures Pruned(Some(c, 10, None, Some(pool, ROOM, None, None)), pool) == Some(c, 10, None, None)
    ensures Nodes(Some(c, 10, None, None)) == {c}
  {
    var w := Some(pool, ROOM, Some(c, 10, None, None), None);
    assert Subtree(w, c) == Some(c, 10, None, None) && Pruned(w, c) == Some(pool, ROOM, None, None);
  }

  /** A pool with one member, as the headers say. */
  ghost predicate Headers(pool: Chunk, c: Chunk)
    reads pool`isPool, pool`size, pool`top, c`inPool, c`isPool, c`pool, c`size
  {
    && pool != c && pool.isPool && pool.size == ROOM && pool.top == BASE + Aligned(HEADER + 10)
    && c.inPool && !c.isPool && c.pool == pool && c.size == 10
  }

  method MakeFirst() returns (a: Allocator, pool: Chunk)
    ensures fresh(a) && fresh(a.chunks) && fresh(pool) && a.Valid()
    ensures a.chunks.repr == {pool} && a.held == {pool} && a.forest == Some(pool, ROOM, None, None)
    ensures pool.isPool && pool.size == ROOM && pool.top == BASE
  {
    hide Chunks.Mem, PoolsOk, HoldsAt, Added, Nodes, Fits;
    a := new Allocator();
    var p := a.MakePool(null, ROOM - POOL_HEADER, true);
    pool := p;
    PoolAlone(pool);
  }

  method AddMember(a: Allocator, pool: Chunk) returns (c: Chunk)
    requires a.Valid() && a.chunks.repr == {pool} && a.held == {pool} && a.forest == Some(pool, ROOM, None, None)
    requires pool.isPool && pool.size == ROOM && pool.top == BASE
    modifies a, a.chunks, pool
    ensures fresh(c) && a.Valid() && a.chunks.repr == {pool, c} && a.held == {pool}
    ensures a.forest == Some(pool, ROOM, Some(c, 10, None, None), None) && Headers(pool, c)
  {
    hide Chunks.Mem, PoolsOk, HoldsAt, Added, Nodes, Allocator.Pools;
    a.Looked(pool);
    ghost var d := a.Pools();
    var r := a.Alloc(pool, 10, true);
    c := r;
    PoolAndMember(pool, c);
    a.Looked(pool);
    a.Looked(c);
  }

  /** A pool, a member of it, and the member stolen away to stand alone. */
  method MakeBereft() returns (a: Allocator, pool: Chunk, c: Chunk)
    ensures fresh(a) && fresh(a.chunks) && fresh(pool) && fresh(c) && a.Valid() && Headers(pool, c)
    ensures a.chunks.repr == {pool, c} && a.held == {pool}
    ensures a.forest == Some(c, 10, None, Some(pool, ROOM, None, None))
  {
    hide Chunks.Mem, PoolsOk, HoldsAt, Freestanding, Nodes, Allocator.Pools, Fits, Headers;
    a, pool := MakeFirst();
    c := AddMember(a, pool);
    PoolAndMember(pool, c);
    var _ := a.Steal(null, c);
  }

  /** The pool is freed: its member is the last one, and nothing of a kilobyte fits. */
  method Bereave(a: Allocator, pool: Chunk, c: Chunk)
    requires a.Valid() && Headers(pool, c) && a.chunks.repr == {pool, c} && a.held == {pool}
    requires a.forest == Some(c, 10, None, Some(pool, ROOM, None, None))
    modifies a, a.chunks, pool, c
    ensures a.Valid() && a.chunks.repr == {c} && a.held == {pool}
    ensures a.forest == Some(c, 10, None, None) && c.inPool && !c.isPool && c.size == 10
    ensures !Fits(a.Pools(), c, HEADER + 1000) && a.Strands(c, 1000, true)
  {
    hide Chunks.Mem, PoolsOk, HoldsAt, Pruned, Nodes, Allocator.Pools;
    PoolAndMember(pool, c);
    var _ := a.Free(pool);
    assert a.chunks.repr == {c};
    a.Looked(c);
    LastCounts(a.Pools(), a.chunks.repr, a.held, c);
    a.Looked(pool);
  }

  /**
    Five calls that leak a pool: its member is stolen away, the pool is freed, and the member, now
    the last of the pool, grows. The pool is still held, with no chunk in it.
   */
  method Leak() returns (a: Allocator, pool: Chunk, c: Chunk)
    ensures fresh(a) && a.Quiet() && a.Is(a.forest) && a.chunks.repr == {c} && !c.inPool
    ensures pool in a.held && !a.PoolsFine()
  {
    hide Chunks.Mem, PoolsOk, HoldsAt, Swapped, Nodes, Allocator.Pools, Fits, Allocator.Strands;
    var first;
    a, pool, first := MakeBereft();
    Bereave(a, pool, first);
    var moved := a.Realloc(null, first, 1000, true, true);
    c := moved;
    SwappedAlone(first, c);
  }

  lemma SwappedAlone(c: Chunk, c': Chunk)
    ensures Swapped(Some(c, 10, None, None), c, c', 1000) == Some(c', 1000, None, None)
    ensures Nodes(Some(c', 1000, None, None)) == {c'}
  {}
}
