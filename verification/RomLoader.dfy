/** The downloading side of the ROM loader protocol, as osmocon steps through it. */
module RomLoader {
  import opened RomLoad

  /** The romload states from the parameter acknowledgement to the branch. */
  datatype State =
    | WaitingIdentification
    | WaitingParamAck
    | SendingBlocks
    | SendingLastBlock
    | LastBlockSent
    | WaitingBlockAck
    | WaitingChecksumAck
    | WaitingBranchAck

  class Downloader {
    const file: seq<Byte>
    var state: State
    var payload: nat
    var block: array<Byte>
    var number: nat
    var ptr: nat
    var checksum: nat
    var wire: seq<Byte>
    ghost var k: nat
    ghost var lead: seq<Byte>
    ghost var start: seq<Byte>
    ghost var wrapped: bool

    constructor (file: seq<Byte>)
      ensures this.file == file && state == WaitingParamAck && wire == [] && fresh(block)
    {
      this.file := file;
      state, payload, number, ptr, checksum := WaitingParamAck, 0, 0, 0, 0;
      block := new Byte[0];
      wire, k, lead, start, wrapped := [], 0, [], [], false;
    }

    /** The block in the buffer is block k; what comes before it on the wire is the blocks before it. */
    ghost predicate Loaded()
      reads this, block
    {
      && block.Length == HEADER + payload && k < 256 && number == (k + 1) % 256
      && block[..] == BlockBytes(file, payload, Offset(payload, k), HEADER + payload)
      && checksum == Checksums(file, payload, k + 1) && ptr <= block.Length
      && (k > 0 ==> Offset(payload, k) < |file|)
      && wire == lead + Blocks(file, payload, k) + block[..ptr]
    }

    ghost predicate Valid()
      reads this, block
    {
      && (state in {SendingBlocks, SendingLastBlock, WaitingBlockAck, LastBlockSent} ==> Loaded())
      && (state in {SendingLastBlock, LastBlockSent} ==> IsLast(file, payload, k))
      && (state in {SendingBlocks, WaitingBlockAck} ==> !IsLast(file, payload, k))
      && (state in {WaitingBlockAck, LastBlockSent} ==> ptr == block.Length)
      && (state == WaitingChecksumAck ==> k < 256 && IsLast(file, payload, k) && wire == Complete())
      && (wrapped ==> |file| > 256 * payload) && (!wrapped ==> lead == start)
    }

    /** All blocks whole and in order, then the checksum command. */
    ghost function Complete(): seq<Byte>
      reads this
    {
      lead + Blocks(file, payload, k + 1) + [0x3c, 0x63, Complement(Checksums(file, payload, k + 1))]
    }

    /** A download only gets as far as the checksum if the file fits into 256 blocks; then nothing was sent twice. */
    lemma ChecksumReached()
      requires Valid() && state == WaitingChecksumAck
      ensures |file| <= 256 * payload && !wrapped && lead == start
    {
      OffsetIs(payload, k);
      assert Offset(payload, k) + payload <= 256 * payload by { AtMost(payload, k + 1, 256); }
    }

    /** Then the checksum command went out, with one less than the sum of the block sums and the number of blocks. */
    lemma ChecksumSent() returns (c: Byte)
      requires Valid() && state == WaitingChecksumAck
      ensures wire == lead + Blocks(file, payload, k + 1) + [0x3c, 0x63, c]
      ensures (c + 1) % 256 == (Sums(file, payload, k + 1) + (k + 1)) % 256
    {
      hide Blocks, Checksums, Sums, Complement, IsLast, Loaded;
      FinalChecksum(file, payload, k + 1);
      c := Complement(Checksums(file, payload, k + 1));
    }

    /** The phone's answer to the parameters, with the block size it wants. */
    method ParamAck(blocksize: nat)
      requires state == WaitingParamAck && blocksize < 0x1_0000
      modifies this, block
      ensures Valid() && fresh(block) && state in {SendingBlocks, SendingLastBlock}
      ensures payload == (blocksize - HEADER) % 0x1_0000 && k == 0 && ptr == 0
      ensures wire == old(wire) && start == old(wire) && !wrapped
    {
      payload := (blocksize - HEADER) % 0x1_0000;
      number := 0;
      start, wrapped := wire, false;
      PrepareBlock();
    }

    /** romload_prepare_block */
    method PrepareBlock()
      requires number < 256 && ptr == (if number == 0 then ptr else block.Length)
      requires number > 0 ==> Loaded() && !IsLast(file, payload, k) && k + 1 == number
      requires number == 0 ==> (wrapped ==> |file| > 256 * payload)
      requires number > 0 ==> (wrapped ==> |file| > 256 * payload) && (!wrapped ==> lead == start)
      requires number == 0 && !wrapped ==> wire == start
      modifies this, block
      ensures Valid() && state in {SendingBlocks, SendingLastBlock} && wire == old(wire) && ptr == 0
      ensures payload == old(payload) && start == old(start) && wrapped == old(wrapped)
      ensures k == old(number) && lead == if old(number) == 0 then old(wire) else old(lead)
      ensures if old(number) == 0 then fresh(block) else block == old(block)
    {
      hide BlockBytes, BlockSum, Blocks, Checksums, BlockByte, Complement, Offset, IsLast;
      NextBuffer();
      OffsetIs(payload, k);
      var start := payload * number;
      var sum := FillBlock(start, |file| - start);
      AfterFilling(start, sum);
    }

    /** The rest of romload_prepare_block. */
    method AfterFilling(start: nat, sum: nat)
      requires number < 256 && k == number && start == Offset(payload, k) && (k > 0 ==> start < |file|)
      requires block.Length == HEADER + payload && block[..] == BlockBytes(file, payload, start, HEADER + payload)
      requires sum == BlockSum(file, payload, start, HEADER + payload) && checksum == Checksums(file, payload, k)
      requires wire == lead + Blocks(file, payload, k)
      requires (wrapped ==> |file| > 256 * payload) && (!wrapped ==> lead == this.start)
      modifies this`state, this`checksum, this`ptr, this`number
      ensures Valid() && state in {SendingBlocks, SendingLastBlock} && ptr == 0
    {
      hide BlockBytes, BlockSum, Blocks, Checksums, BlockByte, Complement, Offset, IsLast;
      LastIs(file, payload, k);
      NextChecksum(file, payload, k);
      state := if |file| - start <= payload then SendingLastBlock else SendingBlocks;
      checksum := checksum + Complement(sum);
      ptr := 0;
      number := (number + 1) % 256;
      assert block[..0] == [];
    }

    /** For the first block a buffer is allocated and the checksum cleared. */
    method NextBuffer()
      requires number < 256 && ptr == (if number == 0 then ptr else block.Length)
      requires number > 0 ==> Loaded() && !IsLast(file, payload, k) && k + 1 == number
      modifies this`block, this`checksum, this`k, this`lead
      ensures k == number && (k > 0 ==> Offset(payload, k) < |file|) && block.Length == HEADER + payload
      ensures checksum == Checksums(file, payload, k) && wire == lead + Blocks(file, payload, k)
      ensures if number == 0 then fresh(block) && lead == wire else block == old(block) && lead == old(lead)
    {
      hide BlockBytes, BlockSum, Blocks, Checksums, BlockByte, Offset;
      NothingYet(file, payload);
      if number == 0 {
        block := new Byte[HEADER + payload];
        checksum := 0;
        k, lead := 0, wire;
      } else {
        NextStart();
        k := k + 1;
      }
    }

    /** The block's bytes, and their sum. */
    method FillBlock(start: nat, remaining: int) returns (sum: nat)
      requires block.Length == HEADER + payload && remaining == |file| - start && remaining >= 0
      modifies block
      ensures block[..] == BlockBytes(file, payload, start, HEADER + payload)
      ensures sum == BlockSum(file, payload, start, HEADER + payload)
    {
      hide BlockBytes, BlockSum, BlockByte;
      FillHeader(start);
      FillPayload(start, remaining);
      BlockIs(block[..], file, payload, start);
      sum := AddUp(start);
    }

    /** The block just sent was not the last, so there is more. */
    lemma NextStart()
      requires Loaded() && !IsLast(file, payload, k)
      ensures Offset(payload, k + 1) < |file|
      ensures Blocks(file, payload, k + 1) == Blocks(file, payload, k) + block[..]
      ensures lead + Blocks(file, payload, k + 1) == lead + Blocks(file, payload, k) + block[..]
    {
      hide BlockBytes;
    }

    lemma AllSent()
      requires Loaded() && ptr == block.Length
      ensures wire + [0x3c, 0x63] + [Complement(checksum)] == Complete()
    {
      hide BlockBytes, Complement, BlockSum, Checksums, Offset;
      assert block[..ptr] == block[..];
      CompleteIs(lead, Blocks(file, payload, k), block[..], [0x3c, 0x63], Complement(checksum));
    }

    method FillHeader(start: nat)
      requires block.Length == HEADER + payload
      modifies block
      ensures forall i :: 0 <= i < HEADER ==> block[i] == BlockByte(file, payload, start, i)
    {
      var address := ADDRESS + start;
      block[0], block[1] := 0x3c, 0x77;
      block[2] := 0x01;
      block[3] := 0x01;
      block[4] := payload / 256 % 256;
      block[5] := payload % 256;
      block[6] := address / 0x100_0000 % 256;
      block[7] := address / 0x1_0000 % 256;
      block[8] := address / 0x100 % 256;
      block[9] := address % 256;
    }

    /** Copies what there is of the file, and clears the rest of the block. */
    method FillPayload(start: nat, remaining: int)
      requires block.Length == HEADER + payload && remaining == |file| - start && remaining >= 0
      requires forall i :: 0 <= i < HEADER ==> block[i] == BlockByte(file, payload, start, i)
      modifies block
      ensures forall i :: 0 <= i < block.Length ==> block[i] == BlockByte(file, payload, start, i)
    {
      var i := 0;
      while i < payload && i < remaining
        invariant i <= payload && i <= remaining
        invariant forall j :: 0 <= j < HEADER + i ==> block[j] == BlockByte(file, payload, start, j)
      {
        block[HEADER + i] := file[start + i];
        i := i + 1;
      }
      while i < payload
        invariant i <= payload && (i < payload ==> i >= remaining)
        invariant forall j :: 0 <= j < HEADER + i ==> block[j] == BlockByte(file, payload, start, j)
      {
        block[HEADER + i] := 0;
        i := i + 1;
      }
    }

    method AddUp(start: nat) returns (sum: nat)
      requires block.Length == HEADER + payload
      requires forall i :: 0 <= i < block.Length ==> block[i] == BlockByte(file, payload, start, i)
      ensures sum == BlockSum(file, payload, start, HEADER + payload)
    {
      sum := 5;
      var i := 5;
      while i < HEADER + payload
        invariant 5 <= i <= HEADER + payload && sum == BlockSum(file, payload, start, i)
      {
        sum := sum + block[i];
        i := i + 1;
      }
    }

    /** handle_write_block; the serial line takes rc bytes of what it is offered, or fails. */
    method WriteBlock(rc: int) returns (r: int)
      requires Valid() && state in {SendingBlocks, SendingLastBlock} && rc <= block.Length - ptr
      modifies this
      ensures Valid() && block == old(block) && k == old(k) && lead == old(lead) && start == old(start)
        && payload == old(payload)
      ensures old(ptr) == block.Length ==> wire == old(wire) && r == 0
      ensures old(ptr) == block.Length ==>
        state == if old(state) == SendingBlocks then WaitingBlockAck else LastBlockSent
      ensures old(ptr) < block.Length ==> state == old(state) && r == if rc < 0 then rc else 0
      ensures old(ptr) < block.Length ==>
        |wire| == |old(wire)| + (if rc < 0 then 0 else rc) && ptr == old(ptr) + if rc < 0 then 0 else rc
    {
      hide BlockBytes, BlockSum, Blocks, Checksums, BlockByte, Offset, IsLast;
      ghost var sent := lead + Blocks(file, payload, k);
      if ptr >= block.Length {
        state := if state == SendingLastBlock then LastBlockSent else WaitingBlockAck;
        return 0;
      }
      if rc < 0 {
        return rc;
      }
      PieceSent(sent, block[..], ptr, rc);
      wire := wire + block[ptr..ptr + rc];
      ptr := ptr + rc;
      return 0;
    }

    /** A block acknowledgement: the next block, or after the last one the checksum. */
    method BlockAck()
      requires Valid() && state in {WaitingBlockAck, LastBlockSent}
      modifies this, block
      ensures Valid() && payload == old(payload) && start == old(start) && (block == old(block) || fresh(block))
      ensures old(state) == LastBlockSent ==>
        state == WaitingChecksumAck && wire == Complete() && k == old(k) && lead == old(lead)
      ensures old(state) == WaitingBlockAck ==>
        state in {SendingBlocks, SendingLastBlock} && ptr == 0 && wire == old(wire)
      ensures old(state) == WaitingBlockAck ==> k == (old(k) + 1) % 256 && (old(k) < 255 ==> lead == old(lead))
      ensures old(state) == WaitingBlockAck && old(k) == 255 ==> lead == wire && |file| > 256 * payload
    {
      hide BlockBytes, BlockSum, Blocks, Checksums, BlockByte, Complement;
      if state == LastBlockSent {
        var finalChecksum := Complement(checksum);
        AllSent();
        wire := wire + [0x3c, 0x63];
        wire := wire + [finalChecksum];
        state := WaitingChecksumAck;
      } else {
        NextStart();
        if number == 0 {
          OffsetIs(payload, 256);
          wrapped := true;
        }
        PrepareBlock();
      }
    }

    /** Writes the block in the buffer, however little the line takes at a time; take says how much it would take. */
    method SendBlock(take: nat -> nat, turn: nat) returns (turn': nat)
      requires Valid() && state in {SendingBlocks, SendingLastBlock}
      requires forall i :: take(i) > 0
      modifies this
      ensures Valid() && block == old(block) && k == old(k) && lead == old(lead) && start == old(start)
        && payload == old(payload)
      ensures state == if old(state) == SendingBlocks then WaitingBlockAck else LastBlockSent
    {
      hide Loaded, BlockBytes;
      turn' := turn;
      LoadedRoom();
      while ptr < block.Length
        invariant Valid() && state == old(state) && ptr <= block.Length
        invariant block == old(block) && k == old(k) && lead == old(lead) && start == old(start)
          && payload == old(payload)
        decreases block.Length - ptr
      {
        ghost var before := ptr;
        var rc := if take(turn') < block.Length - ptr then take(turn') else block.Length - ptr;
        var r := WriteBlock(rc);
        LoadedRoom();
        turn' := turn' + 1;
      }
      var r := WriteBlock(0);
    }

    lemma LoadedRoom()
      requires Valid() && state in {SendingBlocks, SendingLastBlock}
      ensures ptr <= block.Length
    {}

    /**
      A whole download, with any pattern of short writes and the given number of block
      acknowledgements: the checksum is reached exactly if the file fits into 256 blocks and all of
      them were acknowledged.
     */
    method Download(blocksize: nat, take: nat -> nat, acks: nat)
      requires state == WaitingParamAck && blocksize < 0x1_0000
      requires forall i :: take(i) > 0
      modifies this, block
      ensures Valid() && payload == (blocksize - HEADER) % 0x1_0000 && start == old(wire)
      ensures state == WaitingChecksumAck <==> exists n: nat :: n < 256 && IsLast(file, payload, n) && n < acks
      ensures state == WaitingChecksumAck ==> wire == Complete() && lead == old(wire)
      ensures |file| <= 256 * payload && acks >= 256 ==> state == WaitingChecksumAck
      ensures |file| > 256 * payload ==> state in {SendingBlocks, SendingLastBlock}
    {
      hide Loaded, IsLast, BlockBytes, Complete, Offset;
      ParamAck(blocksize);
      var i, turn := 0, 0;
      while i < acks && state != WaitingChecksumAck
        invariant Valid() && payload == (blocksize - HEADER) % 0x1_0000 && start == old(wire) && fresh(block)
        invariant i <= acks && state in {SendingBlocks, SendingLastBlock, WaitingChecksumAck}
        invariant state != WaitingChecksumAck ==> k == i % 256
        invariant state != WaitingChecksumAck ==> forall n: nat :: n < 256 && n < i ==> !IsLast(file, payload, n)
        invariant state == WaitingChecksumAck ==> k < i && k < 256 && IsLast(file, payload, k)
      {
        turn := SendBlock(take, turn);
        BlockAck();
        i := i + 1;
      }
      if state == WaitingChecksumAck {
        ChecksumReached();
      }
      LastWithin(file, payload);
    }

    /** A block was refused: start over from the identification. */
    method BlockNack()
      requires Valid() && state in {WaitingBlockAck, LastBlockSent}
      modifies this`state
      ensures Valid() && state == WaitingIdentification
    {
      state := WaitingIdentification;
    }
  }

  /** A file has its last block among the first 256 exactly if it is no longer than they are. */
  lemma LastWithin(file: seq<Byte>, payload: nat)
    ensures (exists n: nat :: n < 256 && IsLast(file, payload, n)) <==> |file| <= 256 * payload
  {
    if |file| <= 256 * payload && payload > 0 {
      var n := LastExists(file, payload, 0);
      OffsetIs(payload, n);
      if n >= 256 { AtMost(payload, 256, n); }
    }
    if n: nat :| n < 256 && IsLast(file, payload, n) {
      OffsetIs(payload, n);
      AtMost(payload, n + 1, 256);
    }
    if file == [] {
      assert IsLast(file, payload, 0);
    }
  }

  /** A file of 257 bytes in blocks of one byte never gets to the checksum, however often the phone acknowledges. */
  method NeverDone(take: nat -> nat, acks: nat) returns (d: Downloader)
    requires forall i :: take(i) > 0
    ensures fresh(d) && |d.file| == 257 && d.payload == 1 && d.state in {SendingBlocks, SendingLastBlock}
  {
    d := new Downloader(seq(257, _ => 7));
    d.Download(HEADER + 1, take, acks);
  }

  /** A block is the last one if no more is left than fits into it. */
  lemma LastIs(file: seq<Byte>, payload: nat, k: nat)
    requires k > 0 ==> Offset(payload, k) < |file|
    ensures IsLast(file, payload, k) <==> |file| - Offset(payload, k) <= payload
  {}

  lemma CompleteIs(lead: seq<Byte>, a: seq<Byte>, b: seq<Byte>, c: seq<Byte>, d: Byte)
    ensures lead + a + b + c + [d] == lead + (a + b) + (c + [d])
  {}

  lemma PieceSent(sent: seq<Byte>, b: seq<Byte>, ptr: nat, n: nat)
    requires ptr + n <= |b|
    ensures sent + b[..ptr] + b[ptr..ptr + n] == sent + b[..ptr + n]
  {
    assert b[..ptr] + b[ptr..ptr + n] == b[..ptr + n];
  }

  lemma BlockIs(b: seq<Byte>, file: seq<Byte>, payload: nat, start: nat)
    requires |b| == HEADER + payload && forall i :: 0 <= i < |b| ==> b[i] == BlockByte(file, payload, start, i)
    ensures b == BlockBytes(file, payload, start, HEADER + payload)
  {
    forall i: nat | i < |b| ensures b[i] == BlockBytes(file, payload, start, HEADER + payload)[i] {
      ByteOf(file, payload, start, HEADER + payload, i);
    }
  }

  lemma NothingYet(file: seq<Byte>, payload: nat)
    ensures Blocks(file, payload, 0) == [] && Checksums(file, payload, 0) == 0 && Offset(payload, 0) == 0
  {}

  lemma NextChecksum(file: seq<Byte>, payload: nat, k: nat)
    ensures Checksums(file, payload, k + 1)
         == Checksums(file, payload, k) + Complement(BlockSum(file, payload, Offset(payload, k), HEADER + payload))
  {}

  lemma AtMost(payload: nat, a: nat, b: nat)
    requires a <= b
    ensures payload * a <= payload * b
  {}
}
