/** The chunk header, and the sizes the allocator computes with. */
module TallocChunk {

  /** TC_HDR_SIZE on a 64-bit machine: ten words, already a multiple of 16. */
  const HEADER: nat := 80

  /** TALLOC_POOL_HDR_SIZE: where a pool keeps its object count. */
  const POOL_HEADER: nat := 16

  const MAX_SIZE: nat := 0x1000_0000

  /** (n + 15) & ~15 */
  function Aligned(n: nat): (r: nat)
    ensures n <= r < n + 16 && r % 16 == 0
  {
    (n + 15) / 16 * 16
  }

  /**
    struct talloc_chunk. The field pool has two uses in the source: for a member of a pool it
    is the pool (here: pool), for a pool it is the end of the allocated area (here: top, an
    offset from the pool's own header). A member's own address is its offset at.
   */
  class Chunk {
    var next: Chunk?
    var prev: Chunk?
    var parent: Chunk?
    var child: Chunk?
    var size: nat
    var loop: bool
    var isPool: bool
    var inPool: bool
    var pool: Chunk?
    var at: nat
    var top: nat
    var count: nat
    ghost var members: set<Chunk>

    /** How many bytes behind the header malloc, realloc or a pool granted. */
    ghost var room: nat

    constructor (size: nat)
      ensures this.size == size == room && next == null && prev == null && parent == null && child == null
      ensures !loop && !isPool && !inPool && pool == null && members == {} && at == top == count == 0
    {
      this.size, room := size, size;
      next, prev, parent, child := null, null, null, null;
      loop, isPool, inPool, pool := false, false, false, null;
      at, top, count, members := 0, 0, 0, {};
    }

    /** The header of a chunk from a pool. */
    constructor Carved(size: nat, pool: Chunk, at: nat)
      ensures this.size == size && room == Aligned(HEADER + size) - HEADER && next == null && prev == null
        && parent == null && child == null
      ensures !loop && !isPool && inPool && this.pool == pool && members == {} && this.at == at && top == count == 0
    {
      this.size, this.at, this.pool := size, at, pool;
      room := Aligned(HEADER + size) - HEADER;
      next, prev, parent, child := null, null, null, null;
      loop, isPool, inPool := false, false, true;
      top, count, members := 0, 0, {};
    }
  }
}
