/**
  Downloading a file through the phone's ROM loader: the file is cut into blocks with header
  and checksum, each written in as many pieces as the serial line takes, and acknowledged.
 */
module RomLoad {
  type Byte = b: nat | b < 256

  const HEADER: nat := 10
  const ADDRESS: nat := 0x820000

  // ---------------------------------------------------------------- what is to be sent

  /** The file, followed by zeros without end. */
  function FileByte(file: seq<Byte>, x: nat): Byte {
    if x < |file| then file[x] else 0
  }

  /** Where block k starts in the file. */
  ghost function Offset(payload: nat, k: nat): nat {
    if k == 0 then 0 else Offset(payload, k - 1) + payload
  }

  lemma {:induction false} OffsetIs(payload: nat, k: nat)
    ensures Offset(payload, k) == payload * k
  {
    if k > 0 {
      OffsetIs(payload, k - 1);
      assert payload * (k - 1) + payload == payload * k;
    }
  }

  /** Byte i of the block with a given start: command, index, payload size and address, then payload. */
  ghost function BlockByte(file: seq<Byte>, payload: nat, start: nat, i: nat): Byte {
    var a := ADDRESS + start;
    match i
    case 0 => 0x3c
    case 1 => 0x77
    case 2 => 0x01
    case 3 => 0x01
    case 4 => payload / 256 % 256
    case 5 => payload % 256
    case 6 => a / 0x100_0000 % 256
    case 7 => a / 0x1_0000 % 256
    case 8 => a / 0x100 % 256
    case 9 => a % 256
    case _ => FileByte(file, start + i - HEADER)
  }

  /** The first n bytes of that block. */
  ghost function BlockBytes(file: seq<Byte>, payload: nat, start: nat, n: nat): (r: seq<Byte>)
    ensures |r| == n
  {
    if n == 0 then [] else BlockBytes(file, payload, start, n - 1) + [BlockByte(file, payload, start, n - 1)]
  }

  /** The first n blocks, one behind the other. */
  ghost function Blocks(file: seq<Byte>, payload: nat, n: nat): seq<Byte> {
    if n == 0 then []
    else Blocks(file, payload, n - 1) + BlockBytes(file, payload, Offset(payload, n - 1), HEADER + payload)
  }

  /** 5 and all bytes of a block from the size on. */
  ghost function BlockSum(file: seq<Byte>, payload: nat, start: nat, n: nat): nat {
    if n <= 5 then 5 else BlockSum(file, payload, start, n - 1) + BlockByte(file, payload, start, n - 1)
  }

  /** ~x & 0xff */
  function Complement(x: nat): Byte {
    255 - x % 256
  }

  /** The checksums of the first n blocks added up. */
  ghost function Checksums(file: seq<Byte>, payload: nat, n: nat): nat {
    if n == 0 then 0
    else Checksums(file, payload, n - 1) + Complement(BlockSum(file, payload, Offset(payload, n - 1), HEADER + payload))
  }

  /** Block k is the last one: what is left fits into it. */
  ghost predicate IsLast(file: seq<Byte>, payload: nat, k: nat) {
    |file| <= Offset(payload, k) + payload && (k > 0 ==> Offset(payload, k) < |file|)
  }

  // ---------------------------------------------------------------- what that means for the phone

  /** The payload bytes of the first n blocks. */
  ghost function Payloads(file: seq<Byte>, payload: nat, n: nat): seq<Byte> {
    if n == 0 then []
    else Payloads(file, payload, n - 1) + BlockBytes(file, payload, Offset(payload, n - 1), HEADER + payload)[HEADER..]
  }

  ghost function Padded(file: seq<Byte>, n: nat): (r: seq<Byte>)
    ensures |r| == n
  {
    if n == 0 then [] else Padded(file, n - 1) + [FileByte(file, n - 1)]
  }

  lemma {:induction false} PayloadOf(file: seq<Byte>, payload: nat, start: nat, n: nat)
    ensures Padded(file, start) + BlockBytes(file, payload, start, HEADER + n)[HEADER..] == Padded(file, start + n)
    decreases n
  {
    if n > 0 {
      PayloadOf(file, payload, start, n - 1);
      var b := BlockBytes(file, payload, start, HEADER + n);
      assert b[HEADER..] == BlockBytes(file, payload, start, HEADER + n - 1)[HEADER..]
        + [FileByte(file, start + n - 1)];
    }
  }

  lemma NoPadding(file: seq<Byte>, payload: nat)
    ensures Padded(file, Offset(payload, 0)) == []
  {}

  lemma NextOffset(payload: nat, n: nat)
    requires n > 0
    ensures Offset(payload, n) == Offset(payload, n - 1) + payload
  {}

  /** The payloads put together are the file, filled up with zeros. */
  lemma {:induction false} PayloadsAreFile(file: seq<Byte>, payload: nat, n: nat)
    ensures Payloads(file, payload, n) == Padded(file, Offset(payload, n))
    decreases n
  {
    hide BlockBytes, Padded, Offset;
    if n == 0 {
      NoPadding(file, payload);
    } else {
      NextOffset(payload, n);
      PayloadsAreFile(file, payload, n - 1);
      PayloadOf(file, payload, Offset(payload, n - 1), payload);
    }
  }

  lemma {:induction false} PaddedIs(file: seq<Byte>, n: nat)
    ensures n >= |file| ==> Padded(file, n)[..|file|] == file
    ensures n <= |file| ==> Padded(file, n) == file[..n]
    ensures forall x :: |file| <= x < n ==> Padded(file, n)[x] == 0
    decreases n
  {
    if n > 0 {
      PaddedIs(file, n - 1);
      if n <= |file| { assert file[..n] == file[..n - 1] + [file[n - 1]]; }
    }
  }

  function BigEndian(a: int, b: int, c: int, d: int): int {
    ((a * 256 + b) * 256 + c) * 256 + d
  }

  /** Block k goes to the k-th stretch of memory. */
  lemma BlockAddress(file: seq<Byte>, payload: nat, k: nat)
    requires ADDRESS + Offset(payload, k) < 0x1_0000_0000
    ensures var b := BlockBytes(file, payload, Offset(payload, k), HEADER);
      BigEndian(b[6], b[7], b[8], b[9]) == ADDRESS + payload * k
  {
    OffsetIs(payload, k);
    var a := ADDRESS + payload * k;
    HeaderBytes(file, payload, Offset(payload, k));
    FourBytes(a);
  }

  lemma HeaderBytes(file: seq<Byte>, payload: nat, start: nat)
    ensures var b := BlockBytes(file, payload, start, HEADER);
      forall i :: 6 <= i < 10 ==> b[i] == BlockByte(file, payload, start, i)
  {
    forall i: nat | 6 <= i < 10
      ensures BlockBytes(file, payload, start, HEADER)[i] == BlockByte(file, payload, start, i)
    {
      ByteOf(file, payload, start, HEADER, i);
    }
  }

  lemma {:induction false} ByteOf(file: seq<Byte>, payload: nat, start: nat, n: nat, i: nat)
    requires i < n
    ensures BlockBytes(file, payload, start, n)[i] == BlockByte(file, payload, start, i)
    decreases n
  {
    if i < n - 1 { ByteOf(file, payload, start, n - 1, i); }
  }

  lemma FourBytes(a: nat)
    requires a < 0x1_0000_0000
    ensures BigEndian(a / 0x100_0000 % 256, a / 0x1_0000 % 256, a / 0x100 % 256, a % 256) == a
  {
    var b := a / 0x100;
    var c := b / 0x100;
    assert c == a / 0x1_0000 && c / 0x100 == a / 0x100_0000;
  }

  /** A whole block as the phone sees it: command, index, payload size, address and payload. */
  lemma BlockOnWire(file: seq<Byte>, payload: nat, start: nat)
    requires payload < 0x1_0000 && ADDRESS + start < 0x1_0000_0000
    ensures var b := BlockBytes(file, payload, start, HEADER + payload);
      && |b| == 10 + payload && b[..4] == [0x3c, 0x77, 0x01, 0x01]
      && BigEndian(0, 0, b[4], b[5]) == payload
      && BigEndian(b[6], b[7], b[8], b[9]) == ADDRESS + start
      && forall i :: 10 <= i < |b| ==> b[i] == if start + i - 10 < |file| then file[start + i - 10] else 0
  {
    hide BlockBytes;
    var b := BlockBytes(file, payload, start, HEADER + payload);
    forall i: nat | i < |b| ensures b[i] == BlockByte(file, payload, start, i) {
      ByteOf(file, payload, start, HEADER + payload, i);
    }
    FourBytes(ADDRESS + start);
    assert b[..4] == [b[0], b[1], b[2], b[3]];
  }

  /** The sum of some bytes. */
  ghost function SumOf(b: seq<Byte>): nat {
    if b == [] then 0 else SumOf(b[..|b| - 1]) + b[|b| - 1]
  }

  /** What is complemented for a block: 5 and all its bytes from the low one of the size on. */
  lemma {:induction false} BlockSumIs(file: seq<Byte>, payload: nat, start: nat, n: nat)
    requires n >= 5
    ensures BlockSum(file, payload, start, n) == 5 + SumOf(BlockBytes(file, payload, start, n)[5..])
  {
    hide BlockByte;
    if n > 5 {
      BlockSumIs(file, payload, start, n - 1);
      var b := BlockBytes(file, payload, start, n);
      assert b[5..][..n - 6] == BlockBytes(file, payload, start, n - 1)[5..];
    }
  }

  /** Every byte of the file comes in exactly one block, at the place for its address. */
  lemma ByteArrives(file: seq<Byte>, payload: nat, x: nat, k: nat)
    requires payload > 0 && x < |file|
    ensures Offset(payload, k) <= x < Offset(payload, k) + payload <==> k == x / payload
    ensures k == x / payload ==>
      BlockBytes(file, payload, Offset(payload, k), HEADER + payload)[10 + x - Offset(payload, k)] == file[x]
  {
    hide BlockBytes;
    OffsetIs(payload, k);
    Quotient(payload, x, k);
    if k == x / payload {
      ByteOf(file, payload, Offset(payload, k), HEADER + payload, 10 + x - Offset(payload, k));
    }
  }

  lemma Quotient(payload: nat, x: nat, k: nat)
    requires payload > 0
    ensures payload * k <= x < payload * k + payload <==> k == x / payload
  {
    var q := x / payload;
    assert x == payload * q + x % payload;
    if k < q { Multiples(payload, k, q); }
    if q < k { Multiples(payload, q, k); }
  }

  lemma {:induction false} Multiples(p: nat, a: nat, b: nat)
    requires a < b
    ensures p * a + p <= p * b
    decreases b
  {
    assert p * b == p * (b - 1) + p;
    if a < b - 1 { Multiples(p, a, b - 1); }
  }

  /** Added without complements: the sums of all blocks modulo 256. */
  ghost function Sums(file: seq<Byte>, payload: nat, n: nat): nat {
    if n == 0 then 0
    else Sums(file, payload, n - 1) + BlockSum(file, payload, Offset(payload, n - 1), HEADER + payload)
  }

  /** The final checksum, in terms of the plain sums of the blocks. */
  lemma FinalChecksum(file: seq<Byte>, payload: nat, n: nat)
    ensures (Complement(Checksums(file, payload, n)) + 1) % 256 == (Sums(file, payload, n) + n) % 256
  {
    hide Checksums, Sums;
    ChecksumsAndSums(file, payload, n);
    Opposite(Checksums(file, payload, n), Sums(file, payload, n) + n);
  }

  lemma Opposite(c: nat, s: nat)
    requires (c + s) % 256 == 0
    ensures (Complement(c) + 1) % 256 == s % 256
  {
    assert 256 - c % 256 == s + 256 * (1 - (c + s) / 256 + c / 256);
  }

  lemma {:induction false} ChecksumsAndSums(file: seq<Byte>, payload: nat, n: nat)
    ensures (Checksums(file, payload, n) + Sums(file, payload, n) + n) % 256 == 0
    decreases n
  {
    hide BlockSum, Complement;
    if n > 0 {
      ChecksumsAndSums(file, payload, n - 1);
      var b := BlockSum(file, payload, Offset(payload, n - 1), HEADER + payload);
      Complements(b);
      Add256(Checksums(file, payload, n - 1) + Sums(file, payload, n - 1) + (n - 1), Complement(b) + b + 1);
    }
  }

  lemma Complements(b: nat)
    ensures (Complement(b) + b + 1) % 256 == 0
  {
    assert Complement(b) + b + 1 == 256 * (b / 256 + 1);
  }

  lemma Add256(a: nat, b: nat)
    requires a % 256 == 0 && b % 256 == 0
    ensures (a + b) % 256 == 0
  {
    assert a + b == 256 * (a / 256 + b / 256);
  }

  /** There is exactly one last block. */
  lemma {:induction false} LastExists(file: seq<Byte>, payload: nat, k: nat) returns (n: nat)
    requires payload > 0 && (k > 0 ==> Offset(payload, k) < |file|)
    ensures n >= k && IsLast(file, payload, n)
    decreases |file| - Offset(payload, k)
  {
    if |file| <= Offset(payload, k) + payload {
      n := k;
    } else {
      n := LastExists(file, payload, k + 1);
    }
  }

  lemma {:induction false} OffsetGrows(payload: nat, a: nat, b: nat)
    requires a < b
    ensures Offset(payload, a) + payload <= Offset(payload, b)
  {
    if a < b - 1 { OffsetGrows(payload, a, b - 1); }
  }

  lemma LastUnique(file: seq<Byte>, payload: nat, a: nat, b: nat)
    requires IsLast(file, payload, a) && IsLast(file, payload, b)
    ensures a == b
  {
    if a < b { OffsetGrows(payload, a, b); }
    if b < a { OffsetGrows(payload, b, a); }
  }
}
