/** The bit vector with a cursor: fields of any width written one behind the other and read back. */
module BitVec {
  import opened Binary
  import opened Bits
  import opened Options

  const EINVAL: int := 22

  /** ZERO, ONE, and the values relative to the padding pattern. */
  datatype BitValue = Zero | One | L | H

  /** 0x2b, the padding pattern. */
  predicate Pattern(n: nat) {
    n in {0, 1, 3, 5}
  }

  /** The bits of 0x2b. */
  lemma PatternIs(n: nat)
    requires n < 8
    ensures Pattern(n) <==> 0x2b / Pow2(n) % 2 == 1
  {
    hide Pow2;
    SmallPowers();
  }

  /** Whether a value means a set bit at a place of its octet. */
  predicate Means(v: BitValue, n: nat) {
    match v
    case Zero => false
    case One => true
    case L => Pattern(n)
    case H => !Pattern(n)
  }

  // ---------------------------------------------------------------- the width of a number

  /** Numbers are unsigned int of 32 bits; what is returned is an int. */
  const WIDTH: nat := 32
  const HALF: nat := 0x8000_0000

  /** An unsigned int returned as an int. */
  function Signed(ui: nat): int {
    if ui < HALF then ui else ui - 0x1_0000_0000
  }

  /** 1 << n is defined. */
  predicate Shifts(n: int) {
    0 <= n < WIDTH
  }

  // ---------------------------------------------------------------- numbers as bits

  /** ui & (1 << n) */
  predicate Tested(ui: nat, n: nat) {
    ui / Pow2(n) % 2 == 1
  }

  /** The lowest n bits of a number, the highest of them first. */
  ghost function UintBits(ui: nat, n: nat): (r: seq<bool>)
    ensures |r| == n
  {
    if n == 0 then [] else UintBits(ui / 2, n - 1) + [ui % 2 == 1]
  }

  /** The number that bits spell, the highest first. */
  ghost function UintOf(bits: seq<bool>): nat {
    if bits == [] then 0 else 2 * UintOf(bits[..|bits| - 1]) + if bits[|bits| - 1] then 1 else 0
  }

  lemma {:induction false} UintRoundTrip(ui: nat, n: nat)
    requires ui < Pow2(n)
    ensures UintOf(UintBits(ui, n)) == ui
    decreases n
  {
    if n > 0 {
      UintRoundTrip(ui / 2, n - 1);
      assert UintBits(ui, n)[..n - 1] == UintBits(ui / 2, n - 1);
    }
  }

  lemma {:induction false} BitsRoundTrip(bits: seq<bool>)
    ensures UintBits(UintOf(bits), |bits|) == bits && UintOf(bits) < Pow2(|bits|)
  {
    if bits != [] {
      BitsRoundTrip(bits[..|bits| - 1]);
      assert UintOf(bits) / 2 == UintOf(bits[..|bits| - 1]);
    }
  }

  lemma {:induction false} UintBitAt(ui: nat, n: nat, i: nat)
    requires i < n
    ensures UintBits(ui, n)[i] == Tested(ui, n - 1 - i)
    decreases n
  {
    if i < n - 1 {
      UintBitAt(ui / 2, n - 1, i);
      Halved(ui, n - 2 - i);
    }
  }

  // ---------------------------------------------------------------- the vector

  class Vector {
    const data: array<bv8>
    var cur: nat

    constructor (length: nat)
      ensures fresh(data) && data.Length == length && cur == 0
    {
      data := new bv8[length](_ => 0);
      cur := 0;
    }

    /** bitvec_set_bit_pos */
    method SetBitPos(bitnr: nat, v: BitValue) returns (rc: int)
      modifies data
      ensures bitnr >= 8 * data.Length ==> rc == -EINVAL && data[..] == old(data[..])
      ensures bitnr < 8 * data.Length ==>
        rc == 0 && data[..] == Put(old(data[..]), bitnr, false, Means(v, 7 - bitnr % 8))
    {
      hide SetBit, Mask, Pattern, Means, Put, WithoutBit, WithBit;
      var bytenum, bitnum := bitnr / 8, 7 - bitnr % 8;
      if bytenum >= data.Length {
        return -EINVAL;
      }
      ClearThenOr(data[bytenum], bitnum, Means(v, bitnum));
      PutIs(data[..], bitnr, Means(v, bitnum));
      data[bytenum] := WithoutBit(data[bytenum], bitnum);
      data[bytenum] := WithBit(data[bytenum], bitnum, Means(v, bitnum));
      rc := 0;
    }

    /** bitvec_get_bit_pos */
    method GetBitPos(bitnr: nat) returns (rc: int)
      ensures bitnr >= 8 * data.Length ==> rc == -EINVAL
      ensures bitnr < 8 * data.Length ==> rc == if Get(data[..], bitnr, false) then 1 else 0
    {
      if bitnr / 8 >= data.Length {
        return -EINVAL;
      }
      if BitOf(data[bitnr / 8], 7 - bitnr % 8) {
        return 1;
      }
      return 0;
    }

    /** bitvec_get_bit_pos_high: a bit read against the pattern is H exactly if it was set as H. */
    method GetBitPosHigh(bitnr: nat) returns (v: Option<BitValue>)
      ensures bitnr >= 8 * data.Length ==> v == None
      ensures bitnr < 8 * data.Length ==>
        v == Some(if Get(data[..], bitnr, false) == Means(H, 7 - bitnr % 8) then H else L)
    {
      if bitnr / 8 >= data.Length {
        return None;
      }
      if BitOf(data[bitnr / 8], 7 - bitnr % 8) == Means(H, 7 - bitnr % 8) {
        return Some(H);
      }
      return Some(L);
    }

    /** bitvec_set_bit */
    method SetNext(v: BitValue) returns (rc: int)
      modifies data, this`cur
      ensures old(cur) >= 8 * data.Length ==> rc == -EINVAL && data[..] == old(data[..]) && cur == old(cur)
      ensures old(cur) < 8 * data.Length ==>
        rc == 0 && cur == old(cur) + 1 && data[..] == Put(old(data[..]), old(cur), false, Means(v, 7 - old(cur) % 8))
    {
      rc := SetBitPos(cur, v);
      if rc == 0 {
        cur := cur + 1;
      }
    }

    /**
      bitvec_set_uint: as many bits as there is room for, from the highest on. A field wider than
      an unsigned int begins with a shift that is not defined.
     */
    method SetUint(ui: nat, numBits: nat) returns (rc: int, defined: bool)
      requires cur <= 8 * data.Length
      modifies data, this`cur
      ensures defined <==> numBits <= WIDTH
      ensures defined ==> cur == if old(cur) + numBits <= 8 * data.Length then old(cur) + numBits else 8 * data.Length
      ensures defined ==> data[..] == Packed(old(data[..]), old(cur), UintBits(ui, numBits)[..cur - old(cur)], false)
      ensures defined ==> rc == if old(cur) + numBits <= 8 * data.Length then 0 else -EINVAL
    {
      hide Put, Packed, Tested, UintBits;
      rc, defined := 0, true;
      var i := 0;
      ghost var bits := UintBits(ui, numBits);
      NothingPacked(data[..], cur);
      while i < numBits
        invariant i <= numBits && cur == old(cur) + i <= 8 * data.Length
        invariant i > 0 ==> numBits <= WIDTH
        invariant data[..] == Packed(old(data[..]), old(cur), bits[..i], false)
      {
        if !Shifts(numBits - i - 1) {
          return 0, false;
        }
        var v := if Tested(ui, numBits - i - 1) then One else Zero;
        UintBitAt(ui, numBits, i);
        rc := SetNext(v);
        if rc != 0 {
          return;
        }
        OnePacked(old(data[..]), old(cur), bits, i);
        i := i + 1;
      }
      assert bits[..numBits] == bits;
    }

    /**
      bitvec_get_uint: the number, as an int, or the error once the end is reached. In a field wider
      than an unsigned int only zeros may come before the last 32 bits.
     */
    method GetUint(numBits: nat) returns (r: int, defined: bool)
      requires cur <= 8 * data.Length
      modifies this`cur
      ensures defined <==> NarrowFrom(data[..], old(cur), numBits, 8 * data.Length)
      ensures defined ==> cur == if old(cur) + numBits <= 8 * data.Length then old(cur) + numBits else 8 * data.Length
      ensures defined && old(cur) + numBits > 8 * data.Length ==> r == -EINVAL
      ensures defined && old(cur) + numBits <= 8 * data.Length ==>
        var ui := UintOf(Unpacked(data[..], old(cur), numBits, false)); ui < 2 * HALF && r == Signed(ui)
    {
      hide Get, Unpacked, UintOf, Pow2;
      defined := true;
      var ui, i := 0, 0;
      NoneUnpacked(data[..], cur);
      while i < numBits
        modifies this`cur
        invariant i <= numBits && cur == old(cur) + i <= 8 * data.Length
        invariant ui == UintOf(Unpacked(data[..], old(cur), i, false)) * Pow2(numBits - i)
        invariant NarrowFrom(data[..], old(cur), numBits, cur)
      {
        var bit := GetBitPos(cur);
        if bit < 0 {
          return bit, true;
        }
        OneUnpacked(data[..], old(cur), i, numBits);
        if bit != 0 {
          if !Shifts(numBits - i - 1) {
            return 0, false;
          }
          // the bit is still clear, so or-ing it in adds it
          ui := ui + Pow2(numBits - i - 1);
        }
        cur := cur + 1;
        i := i + 1;
      }
      NarrowFits(data[..], old(cur), numBits);
      WholeNumber(data[..], old(cur), numBits);
      r := Signed(ui);
    }
  }

  lemma WholeNumber(s: seq<bv8>, ofs: nat, n: nat)
    requires ofs + n <= 8 * |s|
    ensures UintOf(Unpacked(s, ofs, n, false)) * Pow2(n - n) == UintOf(Unpacked(s, ofs, n, false))
  {}

  /** None of the n bits at ofs, as far as limit, is set more than 32 before their end. */
  ghost predicate NarrowFrom(s: seq<bv8>, ofs: nat, n: nat, limit: nat)
    requires limit <= 8 * |s|
  {
    forall q: nat :: ofs <= q < limit && q + WIDTH < ofs + n ==> !Get(s, q, false)
  }

  /** Bits of which only the last 32 are set spell an unsigned int. */
  lemma NarrowFits(s: seq<bv8>, ofs: nat, n: nat)
    requires ofs + n <= 8 * |s| && NarrowFrom(s, ofs, n, ofs + n)
    ensures UintOf(Unpacked(s, ofs, n, false)) < 2 * HALF
  {
    hide Get, Unpacked, UintOf, Pow2;
    var bits := Unpacked(s, ofs, n, false);
    forall k: nat | k < |bits| - WIDTH ensures !bits[k] {
      UnpackedGet(s, ofs, n, false, k);
    }
    FewBits(bits, WIDTH);
    Power32();
  }

  lemma Power32()
    ensures Pow2(WIDTH) == 2 * HALF
  {
    assert Pow2(8) == 256;
    assert Pow2(16) == 0x1_0000;
    assert Pow2(24) == 0x100_0000;
  }

  lemma {:induction false} FewBits(bits: seq<bool>, n: nat)
    requires forall k: nat :: k < |bits| - n ==> !bits[k]
    ensures UintOf(bits) < Pow2(n)
    decreases |bits|
  {
    if bits != [] {
      var rest := bits[..|bits| - 1];
      FewBits(rest, if n > 0 then n - 1 else 0);
    }
  }

  function WithoutBit(b: bv8, n: nat): bv8
    requires n < 8
  {
    b & !Mask(n)
  }

  function WithBit(b: bv8, n: nat, v: bool): bv8
    requires n < 8
  {
    b | (if v then Mask(n) else 0)
  }

  lemma ClearThenOr(b: bv8, n: nat, v: bool)
    requires n < 8
    ensures WithBit(WithoutBit(b, n), n, v) == SetBit(b, n, v)
  {}

  lemma PutIs(s: seq<bv8>, q: nat, v: bool)
    requires q < 8 * |s|
    ensures Put(s, q, false, v) == s[q / 8 := SetBit(s[q / 8], 7 - q % 8, v)]
  {}

  lemma NothingPacked(s: seq<bv8>, ofs: nat)
    requires ofs <= 8 * |s|
    ensures Packed(s, ofs, [], false) == s && Packed(s, ofs, ([])[..0], false) == s
  {}

  lemma OnePacked(s: seq<bv8>, ofs: nat, bits: seq<bool>, i: nat)
    requires i < |bits| && ofs + i < 8 * |s|
    ensures Packed(s, ofs, bits[..i + 1], false) == Put(Packed(s, ofs, bits[..i], false), ofs + i, false, bits[i])
  {
    assert bits[..i + 1][..i] == bits[..i];
  }

  lemma NoneUnpacked(s: seq<bv8>, ofs: nat)
    requires ofs <= 8 * |s|
    ensures UintOf(Unpacked(s, ofs, 0, false)) == 0
  {}

  lemma OneUnpacked(s: seq<bv8>, ofs: nat, i: nat, n: nat)
    requires i < n && ofs + i < 8 * |s|
    ensures UintOf(Unpacked(s, ofs, i + 1, false)) * Pow2(n - i - 1)
         == UintOf(Unpacked(s, ofs, i, false)) * Pow2(n - i) + if Get(s, ofs + i, false) then Pow2(n - i - 1) else 0
  {
    hide Get;
    var u, b := UintOf(Unpacked(s, ofs, i, false)), Get(s, ofs + i, false);
    assert Unpacked(s, ofs, i + 1, false)[..i] == Unpacked(s, ofs, i, false);
    Doubled(u, b, Pow2(n - i - 1));
  }

  lemma Doubled(u: nat, b: bool, p: nat)
    ensures (2 * u + if b then 1 else 0) * p == u * (2 * p) + if b then p else 0
  {}

  // ---------------------------------------------------------------- fields

  /** A number in a field of some width. */
  datatype Field = Field(value: nat, width: nat)

  ghost function FieldBits(fields: seq<Field>): seq<bool> {
    if fields == [] then [] else UintBits(fields[0].value, fields[0].width) + FieldBits(fields[1..])
  }

  /** Writing one field behind the other. */
  ghost function WriteAll(s: seq<bv8>, cur: nat, fields: seq<Field>): (r: seq<bv8>)
    requires cur + |FieldBits(fields)| <= 8 * |s|
    ensures |r| == |s|
    decreases |fields|
  {
    if fields == [] then s
    else WriteAll(Packed(s, cur, UintBits(fields[0].value, fields[0].width), false), cur + fields[0].width, fields[1..])
  }

  /** Reading fields of the same widths. */
  ghost function ReadAll(s: seq<bv8>, cur: nat, fields: seq<Field>): seq<int>
    requires cur + |FieldBits(fields)| <= 8 * |s|
    decreases |fields|
  {
    if fields == [] then []
    else [Signed(UintOf(Unpacked(s, cur, fields[0].width, false)))] + ReadAll(s, cur + fields[0].width, fields[1..])
  }

  ghost function Values(fields: seq<Field>): (r: seq<int>)
    ensures |r| == |fields| && forall i :: 0 <= i < |fields| ==> r[i] == fields[i].value
  {
    if fields == [] then [] else [fields[0].value] + Values(fields[1..])
  }

  ghost function SignedValues(fields: seq<Field>): (r: seq<int>)
    ensures |r| == |fields| && forall i :: 0 <= i < |fields| ==> r[i] == Signed(fields[i].value)
  {
    if fields == [] then [] else [Signed(fields[0].value)] + SignedValues(fields[1..])
  }

  /** Later fields leave earlier positions alone. */
  lemma {:induction false} WrittenBefore(s: seq<bv8>, cur: nat, fields: seq<Field>, q: nat)
    requires cur + |FieldBits(fields)| <= 8 * |s| && q < cur
    ensures Get(WriteAll(s, cur, fields), q, false) == Get(s, q, false)
    decreases |fields|
  {
    hide Get, Packed;
    if fields != [] {
      var bits := UintBits(fields[0].value, fields[0].width);
      PackedGet(s, cur, bits, false, q);
      WrittenBefore(Packed(s, cur, bits, false), cur + fields[0].width, fields[1..], q);
    }
  }

  /** Any list of fields that fits is read back from the same cursor, as ints. */
  lemma {:induction false} FieldsRead(s: seq<bv8>, cur: nat, fields: seq<Field>)
    requires cur + |FieldBits(fields)| <= 8 * |s|
    requires forall i :: 0 <= i < |fields| ==> fields[i].value < Pow2(fields[i].width)
    ensures ReadAll(WriteAll(s, cur, fields), cur, fields) == SignedValues(fields)
    decreases |fields|
  {
    hide Get, Packed, Unpacked, Pow2, UintBits, UintOf, Signed;
    if fields != [] {
      var f := fields[0];
      var bits := UintBits(f.value, f.width);
      var t := Packed(s, cur, bits, false);
      FieldsRead(t, cur + f.width, fields[1..]);
      FirstField(t, cur, bits, fields[1..], s);
      UintRoundTrip(f.value, f.width);
    }
  }

  /** So the numbers themselves are read back exactly if none of them has the highest of 32 bits set. */
  lemma FieldsRoundTrip(s: seq<bv8>, cur: nat, fields: seq<Field>)
    requires cur + |FieldBits(fields)| <= 8 * |s|
    requires forall i :: 0 <= i < |fields| ==> fields[i].width <= WIDTH && fields[i].value < Pow2(fields[i].width)
    ensures ReadAll(WriteAll(s, cur, fields), cur, fields) == Values(fields)
       <==> forall i :: 0 <= i < |fields| ==> fields[i].value < HALF
  {
    hide ReadAll, WriteAll, FieldBits, Pow2;
    FieldsRead(s, cur, fields);
    var a, b := SignedValues(fields), Values(fields);
    if a == b {
      forall i | 0 <= i < |fields| ensures fields[i].value < HALF {
        assert a[i] == b[i];
      }
    }
  }

  /** No field of up to 31 bits has. */
  lemma NarrowFields(f: Field)
    requires f.width < WIDTH && f.value < Pow2(f.width)
    ensures f.value < HALF && Signed(f.value) == f.value
  {
    Power32();
    Pow2Monotone(f.width, WIDTH - 1);
  }

  /** A number of 32 bits may read as the refusal. */
  lemma ReadsAsRefusal(s: seq<bv8>, cur: nat)
    requires cur + WIDTH <= 8 * |s|
    ensures UintOf(UintBits(0xffff_ffea, WIDTH)) == 0xffff_ffea && Signed(0xffff_ffea) == -EINVAL
    ensures var f := Field(0xffff_ffea, WIDTH);
      |FieldBits([f])| == WIDTH && ReadAll(WriteAll(s, cur, [f]), cur, [f]) == [-EINVAL]
  {
    hide UintBits, UintOf, Pow2, ReadAll, WriteAll;
    Power32();
    UintRoundTrip(0xffff_ffea, WIDTH);
    var f := Field(0xffff_ffea, WIDTH);
    assert FieldBits([f]) == UintBits(f.value, f.width) + FieldBits([f][1..]);
    assert [f][1..] == [] && FieldBits([]) == [];
    FieldsRead(s, cur, [f]);
    assert SignedValues([f]) == [Signed(f.value)];
  }

  lemma FirstField(t: seq<bv8>, cur: nat, bits: seq<bool>, later: seq<Field>, s: seq<bv8>)
    requires cur + |bits| + |FieldBits(later)| <= 8 * |s| && t == Packed(s, cur, bits, false)
    ensures Unpacked(WriteAll(t, cur + |bits|, later), cur, |bits|, false) == bits
  {
    hide Get, Packed, Unpacked;
    var u := WriteAll(t, cur + |bits|, later);
    forall i: nat | i < |bits| ensures Unpacked(u, cur, |bits|, false)[i] == bits[i] {
      UnpackedGet(u, cur, |bits|, false, i);
      WrittenBefore(t, cur + |bits|, later, cur + i);
      PackedGet(s, cur, bits, false, cur + i);
    }
  }

  /** Set as H reads as H, set as L reads as L. */
  lemma HighRoundTrip(s: seq<bv8>, q: nat, v: BitValue)
    requires q < 8 * |s| && v in {L, H}
    ensures Get(Put(s, q, false, Means(v, 7 - q % 8)), q, false) == Means(H, 7 - q % 8) <==> v == H
  {
    hide Get, Put;
    PutGet(s, q, false, Means(v, 7 - q % 8), q);
  }
}
