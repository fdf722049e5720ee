/** Packed and unpacked bits: octets with one bit each, and eight bits to an octet in either order. */
module Bits {
  import opened Binary

  // ---------------------------------------------------------------- one octet

  function SetBit(b: bv8, n: nat, v: bool): bv8
    requires n < 8
  {
    if v then b | Mask(n) else b & !Mask(n)
  }

  lemma SetBitIs(b: bv8, n: nat, v: bool, m: nat)
    requires n < 8 && m < 8
    ensures BitOf(SetBit(b, n, v), m) == if m == n then v else BitOf(b, m)
  {}

  /** An octet is its eight bits. */
  lemma SameBits(a: bv8, b: bv8)
    requires forall n :: 0 <= n < 8 ==> BitOf(a, n) == BitOf(b, n)
    ensures a == b
  {
    assert BitOf(a, 0) == BitOf(b, 0) && BitOf(a, 1) == BitOf(b, 1) && BitOf(a, 2) == BitOf(b, 2)
      && BitOf(a, 3) == BitOf(b, 3);
    assert BitOf(a, 4) == BitOf(b, 4) && BitOf(a, 5) == BitOf(b, 5) && BitOf(a, 6) == BitOf(b, 6)
      && BitOf(a, 7) == BitOf(b, 7);
  }

  // ---------------------------------------------------------------- a buffer

  /** Which bit of its octet position q is, from the low or the high end. */
  function InOctet(q: nat, lsb: bool): (n: nat)
    ensures n < 8
  {
    if lsb then q % 8 else 7 - q % 8
  }

  predicate Get(s: seq<bv8>, q: nat, lsb: bool)
    requires q < 8 * |s|
  {
    BitOf(s[q / 8], InOctet(q, lsb))
  }

  /** Position q is that bit of the number its octet stands for. */
  lemma GetIsBit(s: seq<bv8>, q: nat, lsb: bool)
    requires q < 8 * |s|
    ensures Get(s, q, lsb) <==> s[q / 8] as nat / Pow2(if lsb then q % 8 else 7 - q % 8) % 2 == 1
  {
    hide BitOf, Pow2;
    BitOfIs(s[q / 8], InOctet(q, lsb));
  }

  ghost function Put(s: seq<bv8>, q: nat, lsb: bool, v: bool): (r: seq<bv8>)
    requires q < 8 * |s|
    ensures |r| == |s|
  {
    s[q / 8 := SetBit(s[q / 8], InOctet(q, lsb), v)]
  }

  lemma PutGet(s: seq<bv8>, q: nat, lsb: bool, v: bool, r: nat)
    requires q < 8 * |s| && r < 8 * |s|
    ensures Get(Put(s, q, lsb, v), r, lsb) == if r == q then v else Get(s, r, lsb)
  {
    hide BitOf, SetBit;
    SetBitIs(s[q / 8], InOctet(q, lsb), v, InOctet(r, lsb));
  }

  /** Two buffers with the same bits are the same, whichever way the bits are counted. */
  lemma SameBuffer(s: seq<bv8>, t: seq<bv8>, lsb: bool)
    requires |s| == |t| && forall q :: 0 <= q < 8 * |s| ==> Get(s, q, lsb) == Get(t, q, lsb)
    ensures s == t
  {
    hide BitOf;
    forall i | 0 <= i < |s| ensures s[i] == t[i] {
      forall n: nat | n < 8 ensures BitOf(s[i], n) == BitOf(t[i], n) {
        var q := 8 * i + if lsb then n else 7 - n;
        assert q / 8 == i && InOctet(q, lsb) == n;
        assert Get(s, q, lsb) == Get(t, q, lsb);
      }
      SameBits(s[i], t[i]);
    }
  }

  /** Bits put at consecutive positions. */
  ghost function Packed(s: seq<bv8>, ofs: nat, bits: seq<bool>, lsb: bool): (r: seq<bv8>)
    requires ofs + |bits| <= 8 * |s|
    ensures |r| == |s|
    decreases |bits|
  {
    if bits == [] then s
    else Put(Packed(s, ofs, bits[..|bits| - 1], lsb), ofs + |bits| - 1, lsb, bits[|bits| - 1])
  }

  /** Exactly those positions change. */
  lemma {:induction false} PackedGet(s: seq<bv8>, ofs: nat, bits: seq<bool>, lsb: bool, q: nat)
    requires ofs + |bits| <= 8 * |s| && q < 8 * |s|
    ensures Get(Packed(s, ofs, bits, lsb), q, lsb) == if ofs <= q < ofs + |bits| then bits[q - ofs] else Get(s, q, lsb)
    decreases |bits|
  {
    hide Get, Put;
    if bits != [] {
      var n := |bits| - 1;
      PackedGet(s, ofs, bits[..n], lsb, q);
      PutGet(Packed(s, ofs, bits[..n], lsb), ofs + n, lsb, bits[n], q);
    }
  }

  ghost function Unpacked(s: seq<bv8>, ofs: nat, n: nat, lsb: bool): (r: seq<bool>)
    requires ofs + n <= 8 * |s|
    ensures |r| == n
  {
    if n == 0 then [] else Unpacked(s, ofs, n - 1, lsb) + [Get(s, ofs + n - 1, lsb)]
  }

  lemma {:induction false} UnpackedGet(s: seq<bv8>, ofs: nat, n: nat, lsb: bool, i: nat)
    requires ofs + n <= 8 * |s| && i < n
    ensures Unpacked(s, ofs, n, lsb)[i] == Get(s, ofs + i, lsb)
    decreases n
  {
    if i < n - 1 { UnpackedGet(s, ofs, n - 1, lsb, i); }
  }

  /** Unpacking gets back what was packed, at any offset and in either order; other stretches are as before. */
  lemma PackRoundTrip(s: seq<bv8>, ofs: nat, bits: seq<bool>, lsb: bool)
    requires ofs + |bits| <= 8 * |s|
    ensures Unpacked(Packed(s, ofs, bits, lsb), ofs, |bits|, lsb) == bits
    ensures forall o: nat, n: nat :: o + n <= ofs || (ofs + |bits| <= o && o + n <= 8 * |s|) ==>
      Unpacked(Packed(s, ofs, bits, lsb), o, n, lsb) == Unpacked(s, o, n, lsb)
  {
    hide Get;
    var t := Packed(s, ofs, bits, lsb);
    forall i: nat | i < |bits| ensures Unpacked(t, ofs, |bits|, lsb)[i] == bits[i] {
      UnpackedGet(t, ofs, |bits|, lsb, i);
      PackedGet(s, ofs, bits, lsb, ofs + i);
    }
    forall o: nat, n: nat | o + n <= ofs || (ofs + |bits| <= o && o + n <= 8 * |s|)
      ensures Unpacked(t, o, n, lsb) == Unpacked(s, o, n, lsb)
    {
      Elsewhere(s, ofs, bits, lsb, o, n);
    }
  }

  lemma Elsewhere(s: seq<bv8>, ofs: nat, bits: seq<bool>, lsb: bool, o: nat, n: nat)
    requires ofs + |bits| <= 8 * |s| && (o + n <= ofs || (ofs + |bits| <= o && o + n <= 8 * |s|))
    ensures Unpacked(Packed(s, ofs, bits, lsb), o, n, lsb) == Unpacked(s, o, n, lsb)
  {
    hide Get, Packed;
    var t := Packed(s, ofs, bits, lsb);
    forall i: nat | i < n ensures Unpacked(t, o, n, lsb)[i] == Unpacked(s, o, n, lsb)[i] {
      UnpackedGet(t, o, n, lsb, i);
      UnpackedGet(s, o, n, lsb, i);
      PackedGet(s, ofs, bits, lsb, o + i);
    }
  }

  /** Packing over a stretch forgets only what was in it: the later of two packings counts. */
  lemma PackedTwice(s: seq<bv8>, ofs: nat, a: seq<bool>, b: seq<bool>, lsb: bool)
    requires |a| == |b| && ofs + |a| <= 8 * |s|
    ensures Packed(Packed(s, ofs, a, lsb), ofs, b, lsb) == Packed(s, ofs, b, lsb)
  {
    hide Get, Packed;
    var t, u := Packed(Packed(s, ofs, a, lsb), ofs, b, lsb), Packed(s, ofs, b, lsb);
    forall q: nat | q < 8 * |s| ensures Get(t, q, lsb) == Get(u, q, lsb) {
      PackedGet(Packed(s, ofs, a, lsb), ofs, b, lsb, q);
      PackedGet(s, ofs, a, lsb, q);
      PackedGet(s, ofs, b, lsb, q);
    }
    SameBuffer(t, u, lsb);
  }

  // ---------------------------------------------------------------- the loops

  /** Unpacked bits as truth values: anything but 0 counts as set. */
  ghost function Truths(ubits: seq<bv8>): (r: seq<bool>)
    ensures |r| == |ubits| && forall i :: 0 <= i < |r| ==> r[i] == (ubits[i] != 0)
  {
    if ubits == [] then [] else Truths(ubits[..|ubits| - 1]) + [ubits[|ubits| - 1] != 0]
  }

  const WORD: nat := 0x1_0000_0000

  /** osmo_ubit2pbit_ext; the length is computed unsigned, and with no bits and no offset it wraps. */
  method Ubit2PbitExt(out: array<bv8>, outOfs: nat, input: array<bv8>, inOfs: nat, numBits: nat, lsb: bool)
    returns (length: nat)
    requires outOfs + numBits <= 8 * out.Length && inOfs + numBits <= input.Length && input != out
    modifies out
    ensures out[..] == Packed(old(out[..]), outOfs, Truths(input[inOfs..inOfs + numBits]), lsb)
    ensures outOfs + numBits == 0 ==> length == 0x2000_0000
    ensures 0 < outOfs + numBits <= WORD ==> 8 * (length - 1) < outOfs + numBits <= 8 * length
  {
    hide SetBit, Mask, InOctet, Packed, Put, Truths;
    var i := 0;
    PackedNothing(out[..], outOfs, lsb);
    while i < numBits
      invariant i <= numBits
      invariant out[..] == Packed(old(out[..]), outOfs, Truths(input[inOfs..inOfs + i]), lsb)
    {
      var op := outOfs + i;
      var bn := InOctet(op, lsb);
      OneMore(input[..], inOfs, i);
      assert input[..][inOfs..inOfs + i] == input[inOfs..inOfs + i];
      assert input[..][inOfs..inOfs + i + 1] == input[inOfs..inOfs + i + 1];
      PackedSnoc(old(out[..]), outOfs, Truths(input[inOfs..inOfs + i]), lsb, input[inOfs + i] != 0);
      out[op / 8] := SetBit(out[op / 8], bn, input[inOfs + i] != 0);
      i := i + 1;
    }
    length := (outOfs + numBits - 1) % WORD / 8 + 1;
  }

  lemma PackedNothing(s: seq<bv8>, ofs: nat, lsb: bool)
    requires ofs <= 8 * |s|
    ensures Packed(s, ofs, Truths([]), lsb) == s
  {}

  lemma PackedSnoc(s: seq<bv8>, ofs: nat, bits: seq<bool>, lsb: bool, v: bool)
    requires ofs + |bits| < 8 * |s|
    ensures var q := ofs + |bits|; var p := Packed(s, ofs, bits, lsb);
      Packed(s, ofs, bits + [v], lsb) == p[q / 8 := SetBit(p[q / 8], InOctet(q, lsb), v)]
  {
    hide SetBit, InOctet;
    assert (bits + [v])[..|bits|] == bits;
  }

  lemma OneMore(s: seq<bv8>, ofs: nat, i: nat)
    requires ofs + i < |s|
    ensures s[ofs..ofs + i + 1] == s[ofs..ofs + i] + [s[ofs + i]]
    ensures Truths(s[ofs..ofs + i + 1]) == Truths(s[ofs..ofs + i]) + [s[ofs + i] != 0]
    ensures Truths(s[ofs..ofs + i + 1])[..i] == Truths(s[ofs..ofs + i])
  {
    var t := s[ofs..ofs + i + 1];
    assert t[..i] == s[ofs..ofs + i] && t[i] == s[ofs + i];
  }

  /** osmo_pbit2ubit_ext */
  method Pbit2UbitExt(out: array<bv8>, outOfs: nat, input: array<bv8>, inOfs: nat, numBits: nat, lsb: bool)
    returns (length: nat)
    requires outOfs + numBits <= out.Length && inOfs + numBits <= 8 * input.Length && input != out
    modifies out
    ensures Truths(out[outOfs..outOfs + numBits]) == Unpacked(input[..], inOfs, numBits, lsb)
    ensures forall k :: outOfs <= k < outOfs + numBits ==> out[k] <= 1
    ensures out[..outOfs] == old(out[..outOfs]) && out[outOfs + numBits..] == old(out[outOfs + numBits..])
    ensures length == outOfs + numBits
  {
    hide Get, Unpacked, Truths;
    var i := 0;
    while i < numBits
      invariant i <= numBits
      invariant forall k :: outOfs <= k < outOfs + i ==> out[k] == AsUbit(Get(input[..], inOfs + k - outOfs, lsb))
      invariant forall k :: 0 <= k < outOfs || outOfs + i <= k < out.Length ==> out[k] == old(out[k])
    {
      var ip := inOfs + i;
      GetOctet(input[..], ip, lsb);
      out[outOfs + i] := AsUbit(BitOf(input[ip / 8], InOctet(ip, lsb)));
      i := i + 1;
    }
    ghost var u := out[outOfs..outOfs + numBits];
    UbitsUnpacked(u, input[..], inOfs, lsb);
    assert forall k :: outOfs <= k < outOfs + numBits ==> out[k] == u[k - outOfs];
    length := outOfs + numBits;
  }

  function AsUbit(b: bool): bv8 {
    if b then 1 else 0
  }

  lemma GetOctet(s: seq<bv8>, q: nat, lsb: bool)
    requires q < 8 * |s|
    ensures Get(s, q, lsb) == BitOf(s[q / 8], InOctet(q, lsb))
  {}

  lemma GetHigh(s: seq<bv8>, q: nat)
    requires q < 8 * |s|
    ensures Get(s, q, false) == BitOf(s[q / 8], 7 - q % 8)
  {}

  lemma UbitsUnpacked(u: seq<bv8>, s: seq<bv8>, ofs: nat, lsb: bool)
    requires ofs + |u| <= 8 * |s| && forall k :: 0 <= k < |u| ==> u[k] == AsUbit(Get(s, ofs + k, lsb))
    ensures Truths(u) == Unpacked(s, ofs, |u|, lsb) && forall k :: 0 <= k < |u| ==> u[k] <= 1
  {
    hide Get, Unpacked;
    forall i: nat | i < |u| ensures Truths(u)[i] == Unpacked(s, ofs, |u|, lsb)[i] {
      UnpackedGet(s, ofs, |u|, lsb, i);
    }
  }

  /**
    osmo_pbit2ubit. The eight steps of the inner loop are written out one by one in the source, with
    the limit asked for behind each; so one bit is written even if none was asked for.
   */
  method Pbit2Ubit(out: array<bv8>, input: array<bv8>, numBits: nat) returns (length: nat)
    requires 0 < out.Length && numBits <= out.Length && 0 < input.Length && numBits <= 8 * input.Length && input != out
    modifies out
    ensures length == if numBits == 0 then 1 else numBits
    ensures Truths(out[..length]) == Unpacked(input[..], 0, length, false)
    ensures forall k :: 0 <= k < length ==> out[k] <= 1
    ensures out[length..] == old(out[length..])
  {
    hide Get, Unpacked, Truths, BitOf, AsUbit;
    length := 0;
    var i := 0;
    var done := false;
    while i < numBits / 8 + 1 && !done
      invariant i <= numBits / 8 + 1 && length <= out.Length
      invariant
        if done then length == (if numBits == 0 then 1 else numBits)
        else length == 8 * i && (i > 0 ==> length < numBits)
      invariant forall k :: 0 <= k < length ==> out[k] == AsUbit(Get(input[..], k, false))
      invariant forall k :: length <= k < out.Length ==> out[k] == old(out[k])
    {
      var byte := input[i];
      var b := 0;
      while b < 8 && !done
        invariant b <= 8 && length <= out.Length
        invariant if done then length == (if numBits == 0 then 1 else numBits) else length == 8 * i + b
        invariant !done ==> (length > 0 ==> length < numBits)
        invariant forall k :: 0 <= k < length ==> out[k] == AsUbit(Get(input[..], k, false))
        invariant forall k :: length <= k < out.Length ==> out[k] == old(out[k])
      {
        GetHigh(input[..], length);
        out[length] := AsUbit(BitOf(byte, 7 - b));
        length := length + 1;
        done := length >= numBits;
        b := b + 1;
      }
      i := i + 1;
    }
    UbitsUnpacked(out[..length], input[..], 0, false);
  }

  // ---------------------------------------------------------------- the plain forms

  ghost function Zeros(n: nat): (r: seq<bv8>)
    ensures |r| == n && forall i :: 0 <= i < n ==> r[i] == 0
  {
    seq(n, i => 0)
  }

  /** How many octets so many bits take. */
  function Octets(n: nat): nat {
    (n + 7) / 8
  }

  /** The first j bits of octet k. */
  ghost function Octet(bits: seq<bool>, k: nat, j: nat): bv8
    requires j <= 8 && 8 * k + j <= |bits|
  {
    if j == 0 then 0 else SetBit(Octet(bits, k, j - 1), 8 - j, bits[8 * k + j - 1])
  }

  lemma {:induction false} OctetBits(bits: seq<bool>, k: nat, j: nat, m: nat)
    requires j <= 8 && 8 * k + j <= |bits| && m < 8
    ensures BitOf(Octet(bits, k, j), 7 - m) == (m < j && bits[8 * k + m])
    decreases j
  {
    hide BitOf, SetBit;
    if j == 0 {
      ZeroBits(7 - m);
    } else {
      SetBitIs(Octet(bits, k, j - 1), 8 - j, bits[8 * k + j - 1], 7 - m);
      OctetBits(bits, k, j - 1, m);
    }
  }

  ghost function Filled(bits: seq<bool>, k: nat): (j: nat)
    requires k < Octets(|bits|)
    ensures j <= 8 && 8 * k + j <= |bits|
  {
    if 8 * k + 8 <= |bits| then 8 else |bits| - 8 * k
  }

  /** Octets filled one by one are the packed form on a cleared buffer. */
  lemma OctetsPacked(s: seq<bv8>, bits: seq<bool>)
    requires |s| == Octets(|bits|) && forall k :: 0 <= k < |s| ==> s[k] == Octet(bits, k, Filled(bits, k))
    ensures s == Packed(Zeros(|s|), 0, bits, false)
  {
    hide BitOf, Octet, Packed, Zeros;
    forall q: nat | q < 8 * |s| ensures Get(s, q, false) == Get(Packed(Zeros(|s|), 0, bits, false), q, false) {
      PackedGet(Zeros(|s|), 0, bits, false, q);
      OctetBits(bits, q / 8, Filled(bits, q / 8), q % 8);
      ZeroBits(7 - q % 8);
    }
    SameBuffer(s, Packed(Zeros(|s|), 0, bits, false), false);
  }

  lemma ZeroBits(n: nat)
    requires n < 8
    ensures !BitOf(0, n)
  {}

  /** For a bit that is 0 or 1, or-ing it in is setting the bit, if that was clear. */
  lemma OrIn(b: bv8, n: nat, u: bv8)
    requires n < 8 && u <= 1 && !BitOf(b, n)
    ensures b | Shifted(u, n) == SetBit(b, n, u != 0)
  {
    match n {
      case 0 => case 1 => case 2 => case 3 => case 4 => case 5 => case 6 => case _ =>
    }
  }

  /** u << n */
  function Shifted(u: bv8, n: nat): bv8
    requires n < 8
  {
    match n
    case 0 => u
    case 1 => u << 1
    case 2 => u << 2
    case 3 => u << 3
    case 4 => u << 4
    case 5 => u << 5
    case 6 => u << 6
    case _ => u << 7
  }

  /** One more bit of an octet. */
  lemma NextBit(bits: seq<bool>, i: nat, u: bv8)
    requires i < |bits| && u <= 1 && bits[i] == (u != 0)
    ensures Octet(bits, i / 8, i % 8) | Shifted(u, 7 - i % 8) == Octet(bits, i / 8, i % 8 + 1)
    ensures i % 8 < 7 ==> (i + 1) / 8 == i / 8 && (i + 1) % 8 == i % 8 + 1
    ensures i % 8 == 7 ==> (i + 1) / 8 == i / 8 + 1 && (i + 1) % 8 == 0
  {
    hide Octet, Shifted;
    NextBitAt(bits, i / 8, i % 8, u);
  }

  lemma NextBitAt(bits: seq<bool>, k: nat, j: nat, u: bv8)
    requires j < 8 && 8 * k + j < |bits| && u <= 1 && bits[8 * k + j] == (u != 0)
    ensures Octet(bits, k, j) | Shifted(u, 7 - j) == Octet(bits, k, j + 1)
  {
    hide BitOf, SetBit, Mask, Shifted;
    OctetBits(bits, k, j, j);
    OrIn(Octet(bits, k, j), 7 - j, u);
  }

  lemma NoBit(bits: seq<bool>, k: nat)
    requires 8 * k <= |bits|
    ensures Octet(bits, k, 0) == 0
  {}

  lemma TruthsAt(ubits: seq<bv8>, i: nat)
    requires i < |ubits|
    ensures Truths(ubits)[i] == (ubits[i] != 0) && |Truths(ubits)| == |ubits|
  {}

  /** osmo_ubit2pbit: the same as the extended form from the high end, on a cleared buffer. */
  method Ubit2Pbit(out: array<bv8>, input: array<bv8>, numBits: nat) returns (length: nat)
    requires numBits <= input.Length && Octets(numBits) <= out.Length && input != out
    requires forall i :: 0 <= i < numBits ==> input[i] <= 1
    modifies out
    ensures length == Octets(numBits)
    ensures out[..length] == Packed(Zeros(length), 0, Truths(input[..numBits]), false)
    ensures out[length..] == old(out[length..])
  {
    hide BitOf, SetBit, Mask, Shifted, Zeros, Packed, Octet, Truths;
    ghost var bits := Truths(input[..numBits]);
    length := 0;
    NoBit(bits, 0);
    var curbyte: bv8 := 0;
    var i := 0;
    while i < numBits
      invariant i <= numBits && length == i / 8
      invariant curbyte == Octet(bits, i / 8, i % 8)
      invariant forall k :: 0 <= k < length ==> out[k] == Octet(bits, k, 8)
      invariant forall k :: length <= k < out.Length ==> out[k] == old(out[k])
    {
      var bitnum := 7 - i % 8;
      TruthsAt(input[..numBits], i);
      NextBit(bits, i, input[i]);
      curbyte := curbyte | Shifted(input[i], bitnum);
      if i % 8 == 7 {
        out[length] := curbyte;
        length := length + 1;
        curbyte := 0;
        NoBit(bits, length);
      }
      i := i + 1;
    }
    if i % 8 != 0 {
      out[length] := curbyte;
      length := length + 1;
    }
    OctetsPacked(out[..length], bits);
  }
}
