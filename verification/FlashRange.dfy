/** Walking a range of flash memory block by block, with the layout the phone reports. */
module FlashRange {
  const WORD: nat := 0x1_0000_0000
  const HALF: nat := 0x1_0000
  const MAX_BLOCKS: nat := 512

  /** What the phone reports: chips with their regions of equal blocks. */
  datatype Region = Region(count: nat, size: nat)
  datatype Chip = Chip(address: nat, regions: seq<Region>)

  /** struct flashblock */
  datatype Block = Block(chip: nat, offset: nat, addr: nat, size: nat)

  /** Unsigned 32 bit arithmetic. */
  function Wrap(x: nat): (r: nat)
    ensures r < 0x1_0000_0000 && exists k: nat :: x == r + k * 0x1_0000_0000
  {
    assert x == x % WORD + (x / WORD) * 0x1_0000_0000;
    x % WORD
  }

  lemma NoWrap(x: nat)
    requires x < WORD
    ensures Wrap(x) == x
  {}

  // ---------------------------------------------------------------- the layout

  ghost function RegionBlocks(chip: nat, address: nat, offset: nat, count: nat, size: nat): (r: seq<Block>)
    ensures |r| == count
    decreases count
  {
    if count == 0 then []
    else
      [Block(chip, offset, Wrap(address + offset), size)]
      + RegionBlocks(chip, address, Wrap(offset + size), count - 1, size)
  }

  ghost function OffsetAfter(offset: nat, count: nat, size: nat): nat
    decreases count
  {
    if count == 0 then offset else OffsetAfter(Wrap(offset + size), count - 1, size)
  }

  ghost function ChipBlocks(chip: nat, address: nat, offset: nat, regions: seq<Region>): seq<Block>
    decreases |regions|
  {
    if regions == [] then []
    else
      var n := regions[0].count % HALF;
      RegionBlocks(chip, address, offset, n, regions[0].size)
      + ChipBlocks(chip, address, OffsetAfter(offset, n, regions[0].size), regions[1..])
  }

  ghost function InfoBlocks(chip: nat, chips: seq<Chip>): seq<Block>
    decreases |chips|
  {
    if chips == [] then []
    else ChipBlocks(chip, chips[0].address, 0, chips[0].regions) + InfoBlocks(chip + 1, chips[1..])
  }

  /** The bytes a chip's regions add up to. */
  ghost function RegionsSize(regions: seq<Region>): nat {
    if regions == [] then 0 else Product(regions[0].count, regions[0].size) + RegionsSize(regions[1..])
  }

  ghost function Product(n: nat, size: nat): nat {
    if n == 0 then 0 else size + Product(n - 1, size)
  }

  /** Blocks of one chip, each where the one before it ends. */
  ghost predicate Tiles(bs: seq<Block>, chip: nat, address: nat, from: nat, to: nat) {
    if bs == [] then from == to
    else bs[0] == Block(chip, from, address + from, bs[0].size) && Tiles(bs[1..], chip, address, from + bs[0].size, to)
  }

  lemma {:induction false} TilesJoin(a: seq<Block>, b: seq<Block>, chip: nat, address: nat, from: nat, mid: nat,
      to: nat)
    requires Tiles(a, chip, address, from, mid) && Tiles(b, chip, address, mid, to)
    ensures Tiles(a + b, chip, address, from, to)
  {
    if a == [] {
      assert a + b == b;
    } else {
      TilesJoin(a[1..], b, chip, address, from + a[0].size, mid, to);
      assert (a + b)[1..] == a[1..] + b;
    }
  }

  lemma {:induction false} RegionTiles(chip: nat, address: nat, offset: nat, count: nat, size: nat)
    requires address + offset + Product(count, size) < WORD
    ensures Tiles(RegionBlocks(chip, address, offset, count, size), chip, address, offset,
      offset + Product(count, size))
    ensures OffsetAfter(offset, count, size) == offset + Product(count, size)
    decreases count
  {
    hide Wrap;
    if count > 0 {
      NoWrap(address + offset);
      NoWrap(offset + size);
      RegionTiles(chip, address, offset + size, count - 1, size);
      assert RegionBlocks(chip, address, offset, count, size)[1..]
        == RegionBlocks(chip, address, offset + size, count - 1, size);
    }
  }

  lemma NothingTiles(chip: nat, address: nat, from: nat)
    ensures Tiles([], chip, address, from, from)
  {}

  /** The blocks of a chip tile it without gaps, if nothing wraps and the counts fit their variable. */
  lemma {:induction false} ChipTiles(chip: nat, address: nat, offset: nat, regions: seq<Region>)
    requires address + offset + RegionsSize(regions) < WORD
    requires forall i :: 0 <= i < |regions| ==> regions[i].count < HALF
    ensures Tiles(ChipBlocks(chip, address, offset, regions), chip, address, offset, offset + RegionsSize(regions))
    decreases |regions|
  {
    hide Wrap, Tiles, RegionBlocks, Product, OffsetAfter;
    if regions == [] {
      NothingTiles(chip, address, offset);
    } else {
      var n, size := regions[0].count, regions[0].size;
      var mid := offset + Product(n, size);
      RegionTiles(chip, address, offset, n, size);
      ChipTiles(chip, address, mid, regions[1..]);
      TilesJoin(RegionBlocks(chip, address, offset, n, size), ChipBlocks(chip, address, mid, regions[1..]),
                chip, address, offset, mid, offset + RegionsSize(regions));
    }
  }

  // ---------------------------------------------------------------- the walk

  /** Index of the first block that starts at an address; the number of blocks if there is none. */
  ghost function Find(bs: seq<Block>, addr: nat): (i: nat)
    ensures i <= |bs|
    ensures i < |bs| ==> bs[i].addr == addr
    ensures forall j :: 0 <= j < i ==> bs[j].addr != addr
  {
    if bs == [] || bs[0].addr == addr then 0 else 1 + Find(bs[1..], addr)
  }

  /** The blocks the command is sent for from some offset on, and whether the walk ends without abort. */
  datatype Outcome = Outcome(issued: seq<Block>, ok: bool)

  ghost predicate Positive(bs: seq<Block>) {
    forall i :: 0 <= i < |bs| ==> bs[i].size > 0
  }

  ghost function Walk(bs: seq<Block>, base: nat, len: nat, off: nat): Outcome
    requires Positive(bs)
    decreases len - off
  {
    if off >= len then Outcome([], true)
    else
      var i := Find(bs, Wrap(base + off));
      if i == |bs| then Outcome([], false)
      else
        var rest := Walk(bs, base, len, off + bs[i].size);
        Outcome([bs[i]] + rest.issued, rest.ok)
  }

  ghost predicate Holds(b: Block, a: nat) {
    b.addr <= a < b.addr + b.size
  }

  /** Two blocks with an address in common are the same. */
  ghost predicate Separate(bs: seq<Block>) {
    forall i, j, a :: 0 <= i < |bs| && 0 <= j < |bs| && Holds(bs[i], a) && Holds(bs[j], a) ==> bs[i] == bs[j]
  }

  /** A block with some address in the range. */
  ghost predicate Meets(b: Block, base: nat, len: nat) {
    b.addr < base + len && base < b.addr + b.size
  }

  ghost predicate Covered(bs: seq<Block>, base: nat, len: nat) {
    forall a :: base <= a < base + len ==> HeldBySome(bs, a)
  }

  ghost predicate HeldBySome(bs: seq<Block>, a: nat) {
    exists i :: 0 <= i < |bs| && Holds(bs[i], a)
  }

  /** Each block starts where the one before it ends. */
  ghost predicate Contiguous(bs: seq<Block>, from: nat) {
    bs == [] || (bs[0].addr == from && Contiguous(bs[1..], from + bs[0].size))
  }

  /** No block reaches over an address. */
  ghost predicate Boundary(bs: seq<Block>, a: nat) {
    forall i :: 0 <= i < |bs| && bs[i].addr < a ==> bs[i].addr + bs[i].size <= a
  }

  ghost predicate Small(bs: seq<Block>, base: nat, len: nat) {
    base + len < WORD && forall i :: 0 <= i < |bs| ==> bs[i].addr + bs[i].size < WORD
  }

  lemma NextBoundary(bs: seq<Block>, i: nat)
    requires Positive(bs) && Separate(bs) && i < |bs|
    ensures Boundary(bs, bs[i].addr + bs[i].size)
  {
    var a := bs[i].addr + bs[i].size;
    forall j | 0 <= j < |bs| && bs[j].addr < a ensures bs[j].addr + bs[j].size <= a {
      if bs[j].addr + bs[j].size > a {
        assert Holds(bs[i], a - 1) && Holds(bs[j], a - 1);
      }
    }
  }

  /**
    From a block boundary the command goes to the blocks that meet the range, one behind the
    other in ascending order without gaps, and to no others; the walk ends without abort exactly
    if the whole range is covered by blocks.
   */
  lemma {:induction false} WalkCovers(bs: seq<Block>, base: nat, len: nat, off: nat)
    requires Positive(bs) && Separate(bs) && Small(bs, base, len) && Boundary(bs, base + off) && off <= len
    ensures Contiguous(Walk(bs, base, len, off).issued, base + off)
    ensures forall b :: b in Walk(bs, base, len, off).issued ==> b in bs && Meets(b, base + off, len - off)
    ensures Walk(bs, base, len, off).ok ==>
      forall b :: b in bs && Meets(b, base + off, len - off) ==> b in Walk(bs, base, len, off).issued
    ensures Walk(bs, base, len, off).ok <==> Covered(bs, base + off, len - off)
    decreases len - off
  {
    hide Separate, Boundary, Covered, Small, Find, Wrap;
    if off < len {
      WalkStep(bs, base, len, off);
      var i := Find(bs, base + off);
      if i == |bs| {
        NotCovered(bs, base, len, off);
      } else {
        NextBoundary(bs, i);
        CoverStep(bs, base, len, off, i);
        forall b | b in bs
          ensures Meets(b, base + off, len - off) <==> b == bs[i] || MeetsLater(b, base, len, off + bs[i].size)
        {
          MeetStep(bs, base, len, off, i, b);
        }
        if off + bs[i].size <= len {
          WalkCovers(bs, base, len, off + bs[i].size);
        }
      }
    } else {
      NothingCovered(bs, base + off);
      NothingMet(bs, base + off);
    }
  }

  lemma WalkStep(bs: seq<Block>, base: nat, len: nat, off: nat)
    requires Positive(bs) && Small(bs, base, len) && off < len
    ensures Wrap(base + off) == base + off
  {}

  lemma NothingCovered(bs: seq<Block>, a: nat)
    ensures Covered(bs, a, 0)
  {}

  lemma NothingMet(bs: seq<Block>, a: nat)
    requires Boundary(bs, a)
    ensures forall b :: b in bs ==> !Meets(b, a, 0)
  {}

  ghost predicate MeetsLater(b: Block, base: nat, len: nat, off: nat) {
    off < len && Meets(b, base + off, len - off)
  }

  lemma NotCovered(bs: seq<Block>, base: nat, len: nat, off: nat)
    requires off < len && Boundary(bs, base + off) && Find(bs, base + off) == |bs|
    ensures !Covered(bs, base + off, len - off)
  {
    forall i | 0 <= i < |bs| ensures !Holds(bs[i], base + off) {
      assert bs[i].addr != base + off;
    }
    assert !HeldBySome(bs, base + off);
  }

  lemma CoverStep(bs: seq<Block>, base: nat, len: nat, off: nat, i: nat)
    requires off < len && i < |bs| && bs[i].addr == base + off
    ensures var off' := off + bs[i].size;
      Covered(bs, base + off, len - off) <==> off' >= len || Covered(bs, base + off', len - off')
  {
    var off' := off + bs[i].size;
    forall a | base + off <= a < base + off' ensures HeldBySome(bs, a) {
      assert Holds(bs[i], a);
    }
  }

  lemma MeetStep(bs: seq<Block>, base: nat, len: nat, off: nat, i: nat, b: Block)
    requires Positive(bs) && Separate(bs) && Boundary(bs, base + off) && off < len
    requires i < |bs| && bs[i].addr == base + off && b in bs
    ensures Meets(b, base + off, len - off) <==> b == bs[i] || MeetsLater(b, base, len, off + bs[i].size)
  {
    var j: nat :| j < |bs| && bs[j] == b;
    if Meets(b, base + off, len - off) && b.addr < base + off + bs[i].size {
      assert b.addr >= base + off;
      assert Holds(bs[i], b.addr) && Holds(bs[j], b.addr);
    }
  }

  // ---------------------------------------------------------------- the layout is fit for a walk

  ghost predicate Within(bs: seq<Block>, lo: nat, hi: nat) {
    forall b :: b in bs ==> lo <= b.addr && b.addr + b.size <= hi
  }

  ghost predicate Outside(bs: seq<Block>, lo: nat, hi: nat) {
    forall b :: b in bs ==> b.addr + b.size <= lo || hi <= b.addr
  }

  ghost predicate ChipFine(c: Chip) {
    && c.address + RegionsSize(c.regions) < WORD
    && forall i :: 0 <= i < |c.regions| ==> c.regions[i].count < HALF && c.regions[i].size > 0
  }

  ghost predicate ChipOutside(c: Chip, lo: nat, hi: nat) {
    c.address + RegionsSize(c.regions) <= lo || hi <= c.address
  }

  /** Chips that do not overlap. */
  ghost predicate ChipsFine(chips: seq<Chip>)
    decreases |chips|
  {
    chips == [] ||
    (&& ChipFine(chips[0]) && ChipsFine(chips[1..])
     && forall i :: 1 <= i < |chips| ==>
       ChipOutside(chips[i], chips[0].address, chips[0].address + RegionsSize(chips[0].regions)))
  }

  lemma {:induction false} TilesApart(bs: seq<Block>, chip: nat, address: nat, from: nat, to: nat)
    requires Tiles(bs, chip, address, from, to)
    ensures Within(bs, address + from, address + to) && Separate(bs) && from <= to
  {
    if bs != [] {
      TilesApart(bs[1..], chip, address, from + bs[0].size, to);
      assert bs == [bs[0]] + bs[1..];
      SeparateJoin([bs[0]], bs[1..], address + from, address + from + bs[0].size);
    }
  }

  lemma SeparateJoin(a: seq<Block>, b: seq<Block>, lo: nat, hi: nat)
    requires Separate(a) && Separate(b) && Within(a, lo, hi) && Outside(b, lo, hi)
    ensures Separate(a + b)
  {
    var s := a + b;
    forall i, j, x | 0 <= i < |s| && 0 <= j < |s| && Holds(s[i], x) && Holds(s[j], x) ensures s[i] == s[j] {
      assert i < |a| ==> s[i] == a[i] && a[i] in a;
      assert j < |a| ==> s[j] == a[j] && a[j] in a;
      assert i >= |a| ==> s[i] == b[i - |a|] && b[i - |a|] in b;
      assert j >= |a| ==> s[j] == b[j - |a|] && b[j - |a|] in b;
    }
  }

  lemma {:induction false} RegionPositive(chip: nat, address: nat, offset: nat, count: nat, size: nat)
    requires size > 0
    ensures Positive(RegionBlocks(chip, address, offset, count, size))
    decreases count
  {
    hide Wrap;
    if count > 0 { RegionPositive(chip, address, Wrap(offset + size), count - 1, size); }
  }

  lemma {:induction false} ChipPositive(chip: nat, address: nat, offset: nat, regions: seq<Region>)
    requires forall i :: 0 <= i < |regions| ==> regions[i].size > 0
    ensures Positive(ChipBlocks(chip, address, offset, regions))
    decreases |regions|
  {
    hide Wrap, OffsetAfter, RegionBlocks;
    if regions != [] {
      var n := regions[0].count % HALF;
      RegionPositive(chip, address, offset, n, regions[0].size);
      ChipPositive(chip, address, OffsetAfter(offset, n, regions[0].size), regions[1..]);
    }
  }

  /** The reported blocks never overlap, if the chips do not. */
  lemma {:induction false} InfoSeparate(chip: nat, chips: seq<Chip>)
    requires ChipsFine(chips)
    ensures Separate(InfoBlocks(chip, chips)) && Positive(InfoBlocks(chip, chips))
    decreases |chips|
  {
    hide Separate, ChipBlocks, RegionsSize;
    if chips == [] {
      NothingTiles(0, 0, 0);
      TilesApart([], 0, 0, 0, 0);
    } else {
      var c := chips[0];
      ChipTiles(chip, c.address, 0, c.regions);
      ChipPositive(chip, c.address, 0, c.regions);
      TilesApart(ChipBlocks(chip, c.address, 0, c.regions), chip, c.address, 0, RegionsSize(c.regions));
      InfoSeparate(chip + 1, chips[1..]);
      OthersOutside(chip + 1, chips[1..], c.address, c.address + RegionsSize(c.regions));
      SeparateJoin(ChipBlocks(chip, c.address, 0, c.regions), InfoBlocks(chip + 1, chips[1..]), c.address,
        c.address + RegionsSize(c.regions));
    }
  }

  /** A block as its chip reports it: at its offset from the chip, and as large as the blocks of some region. */
  ghost predicate BlockOf(c: Chip, b: Block) {
    b.addr == c.address + b.offset && exists r :: r in c.regions && b.size == r.size
  }

  ghost predicate Placed(chips: seq<Chip>, first: nat, b: Block) {
    first <= b.chip < first + |chips| && BlockOf(chips[b.chip - first], b)
  }

  lemma {:induction false} RegionSizes(chip: nat, address: nat, offset: nat, count: nat, size: nat)
    ensures forall b :: b in RegionBlocks(chip, address, offset, count, size) ==> b.size == size
    decreases count
  {
    if count > 0 { RegionSizes(chip, address, Wrap(offset + size), count - 1, size); }
  }

  lemma {:induction false} ChipSizes(chip: nat, address: nat, offset: nat, regions: seq<Region>)
    ensures forall b :: b in ChipBlocks(chip, address, offset, regions) ==> exists r :: r in regions && b.size == r.size
    decreases |regions|
  {
    if regions != [] {
      var n := regions[0].count % HALF;
      RegionSizes(chip, address, offset, n, regions[0].size);
      ChipSizes(chip, address, OffsetAfter(offset, n, regions[0].size), regions[1..]);
      assert regions[0] in regions;
    }
  }

  lemma {:induction false} TilesPlaced(bs: seq<Block>, chip: nat, address: nat, from: nat, to: nat)
    requires Tiles(bs, chip, address, from, to)
    ensures forall b :: b in bs ==> b.chip == chip && b.addr == address + b.offset
  {
    if bs != [] { TilesPlaced(bs[1..], chip, address, from + bs[0].size, to); }
  }

  /** Every block of the table carries the number of its chip and its place in it. */
  lemma {:induction false} BlocksPlaced(first: nat, chips: seq<Chip>)
    requires ChipsFine(chips)
    ensures forall b :: b in InfoBlocks(first, chips) ==> Placed(chips, first, b)
    decreases |chips|
  {
    hide ChipBlocks, RegionsSize, BlockOf;
    if chips != [] {
      var c := chips[0];
      ChipTiles(first, c.address, 0, c.regions);
      TilesPlaced(ChipBlocks(first, c.address, 0, c.regions), first, c.address, 0, RegionsSize(c.regions));
      ChipSizes(first, c.address, 0, c.regions);
      BlocksPlaced(first + 1, chips[1..]);
      forall b | b in InfoBlocks(first, chips) ensures Placed(chips, first, b) {
        if b in ChipBlocks(first, c.address, 0, c.regions) {
          BlockOfIs(c, b);
        } else {
          assert Placed(chips[1..], first + 1, b);
          assert chips[1..][b.chip - (first + 1)] == chips[b.chip - first];
        }
      }
    }
  }

  lemma BlockOfIs(c: Chip, b: Block)
    requires b.addr == c.address + b.offset && exists r :: r in c.regions && b.size == r.size
    ensures BlockOf(c, b)
  {}

  /** So every command names the chip of its block and an address in it. */
  lemma CommandsPlaced(chips: seq<Chip>, base: nat, len: nat)
    requires ChipsFine(chips)
    ensures Positive(InfoBlocks(0, chips))
    ensures forall b :: b in Walk(InfoBlocks(0, chips), base, len, 0).issued ==> Placed(chips, 0, b)
  {
    hide Placed, InfoBlocks, ChipsFine;
    InfoSeparate(0, chips);
    BlocksPlaced(0, chips);
    WalkInside(InfoBlocks(0, chips), base, len, 0);
  }

  lemma {:induction false} WalkInside(bs: seq<Block>, base: nat, len: nat, off: nat)
    requires Positive(bs)
    ensures forall b :: b in Walk(bs, base, len, off).issued ==> b in bs
    decreases len - off
  {
    if off < len {
      var i := Find(bs, Wrap(base + off));
      if i < |bs| { WalkInside(bs, base, len, off + bs[i].size); }
    }
  }

  /** The number of blocks of some regions; a count is kept in 16 bits. */
  ghost function BlockCount(regions: seq<Region>): nat {
    if regions == [] then 0 else regions[0].count % 0x1_0000 + BlockCount(regions[1..])
  }

  lemma {:induction false} ChipCount(chip: nat, address: nat, offset: nat, regions: seq<Region>)
    ensures |ChipBlocks(chip, address, offset, regions)| == BlockCount(regions)
    decreases |regions|
  {
    if regions != [] {
      ChipCount(chip, address, OffsetAfter(offset, regions[0].count % HALF, regions[0].size), regions[1..]);
    }
  }

  lemma {:induction false} OthersOutside(chip: nat, chips: seq<Chip>, lo: nat, hi: nat)
    requires ChipsFine(chips) && forall i :: 0 <= i < |chips| ==> ChipOutside(chips[i], lo, hi)
    ensures Outside(InfoBlocks(chip, chips), lo, hi)
    decreases |chips|
  {
    hide Separate, ChipBlocks, RegionsSize;
    if chips != [] {
      var c := chips[0];
      ChipTiles(chip, c.address, 0, c.regions);
      TilesApart(ChipBlocks(chip, c.address, 0, c.regions), chip, c.address, 0, RegionsSize(c.regions));
      assert ChipOutside(c, lo, hi);
      OthersOutside(chip + 1, chips[1..], lo, hi);
    }
  }

  // ---------------------------------------------------------------- the tool

  /** LOADER_FLASH_INFO, apart from all the range commands. */
  const FLASH_INFO: nat := 9

  datatype State = GetInfo | InProgress

  class FlashTool {
    const blocks: array<Block>
    var numblocks: nat
    var state: State
    var flashcommand: nat
    var membase: nat
    var memlen: nat
    var memoff: nat
    var quit: bool
    var aborted: bool
    var overrun: bool
    ghost var issued: seq<Block>

    /** loader_start_flashrange */
    constructor (command: nat, address: nat, length: nat)
      ensures fresh(blocks) && blocks.Length == MAX_BLOCKS && state == GetInfo && issued == []
      ensures flashcommand == command && membase == address && memlen == length && memoff == 0 && !quit && !aborted
        && !overrun
    {
      blocks := new Block[MAX_BLOCKS](_ => Block(0, 0, 0, 0));
      numblocks, state, flashcommand := 0, GetInfo, command;
      membase, memlen, memoff := address, length, 0;
      quit, aborted, overrun, issued := false, false, false, [];
    }

    ghost function Layout(): seq<Block>
      requires numblocks <= blocks.Length
      reads this, blocks
    {
      blocks[..numblocks]
    }

    /**
      loader_parse_flash_info; inside says that the blocks fit into their array. If not, the source
      goes on writing behind it; here the parse ends with a full array.
     */
    method ParseFlashInfo(chips: seq<Chip>) returns (inside: bool)
      modifies this`numblocks, blocks
      ensures inside <==> |InfoBlocks(0, chips)| <= blocks.Length
      ensures numblocks <= blocks.Length
      ensures Layout() == if inside then InfoBlocks(0, chips) else InfoBlocks(0, chips)[..blocks.Length]
    {
      hide ChipBlocks;
      numblocks, inside := 0, true;
      var chip := 0;
      while chip < |chips|
        invariant chip <= |chips| && numblocks <= blocks.Length
        invariant Layout() + InfoBlocks(chip, chips[chip..]) == InfoBlocks(0, chips)
      {
        assert chips[chip..][0] == chips[chip] && chips[chip..][1..] == chips[chip + 1..];
        ghost var rest := InfoBlocks(chip + 1, chips[chip + 1..]);
        inside := ParseChip(chip, chips[chip].address, chips[chip].regions, rest);
        if !inside {
          PrefixIs(Layout(), InfoBlocks(0, chips), blocks.Length);
          return;
        }
        chip := chip + 1;
      }
    }

    /** The regions of one chip; rest is what the other chips still bring. */
    method ParseChip(chip: nat, address: nat, regions: seq<Region>, ghost rest: seq<Block>) returns (inside: bool)
      requires numblocks <= blocks.Length
      modifies this`numblocks, blocks
      ensures inside <==> |old(Layout()) + ChipBlocks(chip, address, 0, regions)| <= blocks.Length
      ensures numblocks <= blocks.Length
      ensures inside ==> Layout() == old(Layout()) + ChipBlocks(chip, address, 0, regions)
      ensures !inside ==>
        && numblocks == blocks.Length
        && Layout() <= old(Layout()) + (ChipBlocks(chip, address, 0, regions) + rest)
    {
      var curoffset, region := 0, 0;
      inside := true;
      while region < |regions|
        invariant region <= |regions| && numblocks <= blocks.Length
        invariant Layout() + ChipBlocks(chip, address, curoffset, regions[region..])
          == old(Layout()) + ChipBlocks(chip, address, 0, regions)
      {
        assert regions[region..][0] == regions[region] && regions[region..][1..] == regions[region + 1..];
        var blockcount := regions[region].count % HALF;
        ghost var later := ChipBlocks(chip, address, OffsetAfter(curoffset, blockcount, regions[region].size),
          regions[region + 1..]);
        inside, curoffset := ParseRegion(chip, address, curoffset, blockcount, regions[region].size, later);
        if !inside {
          PrefixOfMore(Layout(), old(Layout()) + ChipBlocks(chip, address, 0, regions), old(Layout()),
            ChipBlocks(chip, address, 0, regions), rest);
          return;
        }
        region := region + 1;
      }
    }

    /** The blocks of one region; later is what the rest of the chip still brings. */
    method ParseRegion(chip: nat, address: nat, offset: nat, blockcount: nat, blocksize: nat, ghost later: seq<Block>)
      returns (inside: bool, curoffset: nat)
      requires numblocks <= blocks.Length
      modifies this`numblocks, blocks
      ensures inside <==> old(numblocks) + blockcount <= blocks.Length
      ensures inside ==>
        && numblocks == old(numblocks) + blockcount
        && curoffset == OffsetAfter(offset, blockcount, blocksize)
      ensures numblocks <= blocks.Length
      ensures inside ==> Layout() == old(Layout()) + RegionBlocks(chip, address, offset, blockcount, blocksize)
      ensures !inside ==>
        numblocks == blocks.Length
          && Layout() <= old(Layout()) + (RegionBlocks(chip, address, offset, blockcount, blocksize) + later)
    {
      curoffset := offset;
      var block := 0;
      while block < blockcount
        invariant block <= blockcount && numblocks == old(numblocks) + block <= blocks.Length
        invariant OffsetAfter(curoffset, blockcount - block, blocksize) == OffsetAfter(offset, blockcount, blocksize)
        invariant Layout() + RegionBlocks(chip, address, curoffset, blockcount - block, blocksize)
               == old(Layout()) + RegionBlocks(chip, address, offset, blockcount, blocksize)
      {
        if numblocks == blocks.Length {
          PrefixOfMore(Layout(), old(Layout()) + RegionBlocks(chip, address, offset, blockcount, blocksize),
            old(Layout()),
                       RegionBlocks(chip, address, offset, blockcount, blocksize), later);
          inside := false;
          return;
        }
        blocks[numblocks] := Block(chip, curoffset, Wrap(address + curoffset), blocksize);
        curoffset := Wrap(curoffset + blocksize);
        numblocks := numblocks + 1;
        block := block + 1;
      }
      inside := true;
    }

    /** What is still to come, as things stand. */
    ghost function Ahead(): Outcome
      requires numblocks <= blocks.Length && Positive(Layout())
      reads this, blocks
    {
      Walk(Layout(), membase, memlen, memoff)
    }

    /** The common part of loader_do_flashrange: the next command, or the end, or abort. */
    method Advance()
      requires numblocks <= blocks.Length && Positive(Layout())
      modifies this`memoff, this`quit, this`aborted, this`issued
      ensures Positive(Layout()) && Layout() == old(Layout()) && Ahead().ok == old(Ahead()).ok
      ensures old(Ahead()).issued != [] ==>
        && issued == old(issued) + [old(Ahead()).issued[0]] && Ahead().issued == old(Ahead()).issued[1..]
        && quit == old(quit) && aborted == old(aborted)
      ensures old(Ahead()).issued == [] ==>
        && issued == old(issued) && Ahead() == old(Ahead())
        && quit == (old(quit) || old(Ahead()).ok) && aborted == (old(aborted) || !old(Ahead()).ok)
    {
      var addr := Wrap(membase + memoff);
      if memoff >= memlen {
        quit := true;
        return;
      }
      var i := 0;
      while i < numblocks
        modifies this`memoff, this`issued
        invariant i <= numblocks && memoff == old(memoff) && issued == old(issued)
        invariant forall j :: 0 <= j < i ==> blocks[j].addr != addr
      {
        if blocks[i].addr == addr {
          FoundAt(Layout(), addr, i);
          issued := issued + [blocks[i]];
          memoff := memoff + blocks[i].size;
          return;
        }
        i := i + 1;
      }
      aborted := true;
      FoundAt(Layout(), addr, numblocks);
    }

    /** A reply while a range operation is on: the layout first, then one confirmation for each command. */
    method Reply(cmd: nat, chips: seq<Chip>)
      requires numblocks <= blocks.Length && Positive(Layout())
      requires state == GetInfo && cmd == FLASH_INFO ==> Positive(InfoBlocks(0, chips))
      modifies this, blocks
      ensures numblocks <= blocks.Length && Positive(Layout())
      ensures membase == old(membase) && memlen == old(memlen) && flashcommand == old(flashcommand)
      ensures old(state) == GetInfo && cmd == FLASH_INFO && |InfoBlocks(0, chips)| > blocks.Length ==> overrun
      ensures old(state) == GetInfo && cmd == FLASH_INFO && |InfoBlocks(0, chips)| <= blocks.Length ==>
        && state == InProgress && overrun == old(overrun) && Layout() == InfoBlocks(0, chips)
        && Went(Walk(InfoBlocks(0, chips), membase, memlen, old(memoff)), old(issued), old(quit), old(aborted))
      ensures old(state) == InProgress && cmd == flashcommand ==>
        && state == InProgress && overrun == old(overrun) && Layout() == old(Layout())
        && Went(old(Ahead()), old(issued), old(quit), old(aborted))
      ensures cmd != (if old(state) == GetInfo then FLASH_INFO else flashcommand) ==>
        && state == old(state) && overrun == old(overrun) && Layout() == old(Layout()) && Ahead() == old(Ahead())
        && issued == old(issued) && quit == old(quit) && aborted == old(aborted)
    {
      match state
      case GetInfo =>
        if cmd == FLASH_INFO {
          var inside := ParseFlashInfo(chips);
          if !inside {
            overrun := true;
            return;
          }
          state := InProgress;
          Advance();
        }
      case InProgress =>
        if cmd == flashcommand {
          Advance();
        }
    }

    /** One command more of those that were ahead; quit or abort if there was none. */
    ghost predicate Went(ahead: Outcome, issued0: seq<Block>, quit0: bool, aborted0: bool)
      requires numblocks <= blocks.Length && Positive(Layout())
      reads this, blocks
    {
      WentTo(ahead, issued0, quit0, aborted0, Ahead(), issued, quit, aborted)
    }

    /**
      A whole operation: the layout, then any replies. The commands go out one for each confirmation,
      in the order of the walk; as many confirmations as commands end it, without abort exactly if
      the range is covered.
     */
    method Run(chips: seq<Chip>, replies: seq<nat>)
      requires state == GetInfo && memoff == 0 && issued == [] && !quit && !aborted && numblocks == 0
      requires |InfoBlocks(0, chips)| <= blocks.Length && Positive(InfoBlocks(0, chips))
      modifies this, blocks
      ensures membase == old(membase) && memlen == old(memlen)
      ensures var w, n := Walk(InfoBlocks(0, chips), membase, memlen, 0), Confirmations(replies, old(flashcommand));
        && issued == w.issued[..Min(n + 1, |w.issued|)]
        && (quit <==> w.ok && n >= |w.issued|)
        && (aborted <==> !w.ok && n >= |w.issued|)
    {
      hide Walk, InfoBlocks, WentTo, AtStage;
      Reply(FLASH_INFO, chips);
      ghost var w := Walk(InfoBlocks(0, chips), membase, memlen, 0);
      FirstStage(w, Ahead(), issued, quit, aborted);
      var i := 0;
      while i < |replies|
        invariant i <= |replies| && state == InProgress && numblocks <= blocks.Length && Positive(Layout())
        invariant membase == old(membase) && memlen == old(memlen) && flashcommand == old(flashcommand)
        invariant Stage(w, Confirmations(replies[..i], flashcommand))
      {
        ghost var n, ahead, sent, done, gone := Confirmations(replies[..i], flashcommand), Ahead(), issued, quit,
          aborted;
        assert replies[..i + 1][..i] == replies[..i];
        Reply(replies[i], []);
        if replies[i] == flashcommand {
          NextStage(w, n, ahead, sent, done, gone, Ahead(), issued, quit, aborted);
        }
        i := i + 1;
      }
      assert replies[..|replies|] == replies;
      AtEnd(w, Confirmations(replies, flashcommand), issued, Ahead(), quit, aborted);
    }

    /** After n confirmations. */
    ghost predicate Stage(w: Outcome, n: nat)
      requires numblocks <= blocks.Length && Positive(Layout())
      reads this, blocks
    {
      AtStage(w, n, issued, Ahead(), quit, aborted)
    }
  }

  ghost predicate AtStage(w: Outcome, n: nat, issued: seq<Block>, ahead: Outcome, quit: bool, aborted: bool) {
    var m := Min(n + 1, |w.issued|);
    && issued == w.issued[..m] && ahead == Outcome(w.issued[m..], w.ok)
    && (quit <==> w.ok && n >= |w.issued|)
    && (aborted <==> !w.ok && n >= |w.issued|)
  }

  lemma AtEnd(w: Outcome, n: nat, issued: seq<Block>, ahead: Outcome, quit: bool, aborted: bool)
    requires AtStage(w, n, issued, ahead, quit, aborted)
    ensures issued == w.issued[..Min(n + 1, |w.issued|)]
    ensures (quit <==> w.ok && n >= |w.issued|) && (aborted <==> !w.ok && n >= |w.issued|)
  {}

  /** What one call does, on values. */
  ghost predicate WentTo(ahead0: Outcome, issued0: seq<Block>, quit0: bool, aborted0: bool,
                         ahead: Outcome, issued: seq<Block>, quit: bool, aborted: bool) {
    && ahead.ok == ahead0.ok
    && (if ahead0.issued != [] then
          issued == issued0 + [ahead0.issued[0]] && ahead.issued == ahead0.issued[1..] && quit == quit0
            && aborted == aborted0
        else
          issued == issued0 && ahead.issued == [] && quit == (quit0 || ahead0.ok)
            && aborted == (aborted0 || !ahead0.ok))
  }

  lemma FirstStage(w: Outcome, ahead: Outcome, issued: seq<Block>, quit: bool, aborted: bool)
    requires WentTo(w, [], false, false, ahead, issued, quit, aborted)
    ensures AtStage(w, 0, issued, ahead, quit, aborted)
  {}

  lemma NextStage(w: Outcome, n: nat, ahead0: Outcome, issued0: seq<Block>, quit0: bool, aborted0: bool,
                  ahead: Outcome, issued: seq<Block>, quit: bool, aborted: bool)
    requires AtStage(w, n, issued0, ahead0, quit0, aborted0)
    requires WentTo(ahead0, issued0, quit0, aborted0, ahead, issued, quit, aborted)
    ensures AtStage(w, n + 1, issued, ahead, quit, aborted)
  {
    if ahead0.issued != [] {
      assert w.issued[..n + 2] == w.issued[..n + 1] + [w.issued[n + 1]];
    }
  }

  function Min(a: nat, b: nat): nat {
    if a < b then a else b
  }

  /** How many of the replies confirm the command. */
  ghost function Confirmations(replies: seq<nat>, command: nat): (n: nat)
    ensures n <= |replies|
  {
    if replies == [] then 0
    else Confirmations(replies[..|replies| - 1], command) + if replies[|replies| - 1] == command then 1 else 0
  }

  lemma PrefixIs(s: seq<Block>, whole: seq<Block>, n: nat)
    requires s <= whole && |s| == n
    ensures n <= |whole| && s == whole[..n]
  {}

  lemma PrefixOfMore(s: seq<Block>, whole: seq<Block>, a: seq<Block>, b: seq<Block>, c: seq<Block>)
    requires s <= whole && whole == a + b
    ensures s <= a + (b + c)
  {
    assert a + (b + c) == whole + c;
  }

  /** A range that starts inside a block is given up at once. */
  lemma StartsInside(bs: seq<Block>, base: nat, len: nat)
    requires Positive(bs) && Separate(bs) && Small(bs, base, len) && !Boundary(bs, base) && len > 0
    ensures Walk(bs, base, len, 0) == Outcome([], false)
  {
    var j :| 0 <= j < |bs| && bs[j].addr < base < bs[j].addr + bs[j].size;
    assert Holds(bs[j], base);
    forall i | 0 <= i < |bs| ensures bs[i].addr != base {
      if bs[i].addr == base { assert Holds(bs[i], base); }
    }
    FoundAt(bs, base, |bs|);
  }

  /**
    The layout of fine chips, and any range: the commands are all issued exactly if the range
    starts at a block boundary and is covered, and then there is one for each block it meets.
   */
  lemma RangeDone(chips: seq<Chip>, base: nat, len: nat)
    requires ChipsFine(chips) && Small(InfoBlocks(0, chips), base, len)
    ensures Positive(InfoBlocks(0, chips))
    ensures var bs, w := InfoBlocks(0, chips), Walk(InfoBlocks(0, chips), base, len, 0);
      && (w.ok <==> len == 0 || (Covered(bs, base, len) && Boundary(bs, base)))
      && (w.ok && len > 0 ==> |w.issued| == |set b | b in bs && Meets(b, base, len)|)
      && (w.ok && len > 0 ==> forall b :: b in w.issued <==> b in bs && Meets(b, base, len))
      && Contiguous(w.issued, base)
  {
    hide Separate, Boundary, Covered, Small, ChipsFine, InfoBlocks;
    InfoSeparate(0, chips);
    var bs := InfoBlocks(0, chips);
    var w := Walk(bs, base, len, 0);
    if len > 0 && !Boundary(bs, base) {
      StartsInside(bs, base, len);
    } else if len > 0 {
      WalkCovers(bs, base, len, 0);
    }
    if w.ok && len > 0 {
      forall i | 0 <= i < |w.issued| ensures w.issued[i].size > 0 {
        assert w.issued[i] in bs;
      }
      ContiguousCount(w.issued, base);
      assert (set b | b in w.issued) == (set b | b in bs && Meets(b, base, len));
    }
  }

  lemma {:induction false} ContiguousCount(bs: seq<Block>, from: nat)
    requires Contiguous(bs, from) && Positive(bs)
    ensures forall b :: b in bs ==> b.addr >= from
    ensures |set b | b in bs| == |bs|
  {
    if bs != [] {
      ContiguousCount(bs[1..], from + bs[0].size);
      assert (set b | b in bs) == {bs[0]} + (set b | b in bs[1..]);
      assert bs[0] !in bs[1..];
    }
  }

  lemma {:induction false} FoundAt(bs: seq<Block>, addr: nat, i: nat)
    requires i <= |bs| && (forall j :: 0 <= j < i ==> bs[j].addr != addr) && (i < |bs| ==> bs[i].addr == addr)
    ensures Find(bs, addr) == i
  {}
}
