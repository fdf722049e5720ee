/**
  The Mobile Allocation element (section 10.5.2.21 of GSM 04.08): a bit map over the serving
  cell's channels. Two places of the program decode it, each with a loop of its own.
 */
module MobileAlloc {
  import opened Binary

  const CHANNELS: nat := 1024
  const FREQ_TYPE_SERV: bv8 := 0x01
  const FREQ_TYPE_HOPP: bv8 := 0x02

  predicate Serving(mask: bv8) {
    mask & FREQ_TYPE_SERV != 0
  }

  predicate Hopping(mask: bv8) {
    mask & FREQ_TYPE_HOPP != 0
  }

  function Cleared(mask: bv8): bv8 {
    mask & !FREQ_TYPE_HOPP
  }

  function Marked(mask: bv8): bv8 {
    mask | FREQ_TYPE_HOPP
  }

  /** Only the hopping flag changes. */
  lemma OneFlag(mask: bv8)
    ensures !Hopping(Cleared(mask)) && Hopping(Marked(mask))
    ensures Serving(Cleared(mask)) == Serving(mask) == Serving(Marked(mask))
    ensures Cleared(mask) & !FREQ_TYPE_HOPP == mask & !FREQ_TYPE_HOPP == Marked(mask) & !FREQ_TYPE_HOPP
    ensures Marked(Marked(mask)) == Marked(mask)
  {}

  /** Bit i of the map; the last octet holds the lowest bits. */
  predicate Bit(ma: seq<bv8>, i: nat)
    requires i < 8 * |ma|
  {
    ma[|ma| - 1 - i / 8] & (1 << (i % 8) as bv4) != 0
  }

  // ---------------------------------------------------------------- the map as a number

  /** The number the octets of the element spell, the first of them the highest. */
  function Number(ma: seq<bv8>): nat {
    if ma == [] then 0 else 256 * Number(ma[..|ma| - 1]) + ma[|ma| - 1] as nat
  }

  /** Bit i of a number. */
  predicate Tested(x: nat, i: nat) {
    x / Pow2(i) % 2 == 1
  }

  lemma TestedHalf(x: nat, i: nat)
    ensures Tested(x, 0) <==> x % 2 == 1
    ensures Tested(x, i + 1) <==> Tested(x / 2, i)
  {
    Halved(x, i);
  }

  lemma {:induction false} TestedBehind(x: nat, o: nat, n: nat, i: nat)
    requires o < Pow2(n)
    ensures i < n ==> (Tested(Pow2(n) * x + o, i) <==> Tested(o, i))
    ensures i >= n ==> (Tested(Pow2(n) * x + o, i) <==> Tested(x, i - n))
    decreases n
  {
    hide Tested;
    if n > 0 {
      HalfOf(x, o, n);
      TestedHalf(Pow2(n) * x + o, if i > 0 then i - 1 else 0);
      TestedHalf(o, if i > 0 then i - 1 else 0);
      if i > 0 { TestedBehind(x, o / 2, n - 1, i - 1); }
    }
  }

  lemma HalfOf(x: nat, o: nat, n: nat)
    requires n > 0 && o < Pow2(n)
    ensures (Pow2(n) * x + o) / 2 == Pow2(n - 1) * x + o / 2 && (Pow2(n) * x + o) % 2 == o % 2
    ensures o / 2 < Pow2(n - 1)
  {
    var y := Pow2(n - 1) * x;
    assert Pow2(n) * x + o == 2 * y + o;
  }

  lemma OctetBit(o: bv8, i: nat)
    requires i < 8
    ensures o & (1 << i as bv4) != 0 <==> Tested(o as nat, i)
  {
    hide Tested, Pow2;
    ShiftIsMask(i);
    BitOfIs(o, i);
    TestedIs(o as nat, i);
  }

  lemma ShiftIsMask(i: nat)
    requires i < 8
    ensures (1 << i as bv4) == Mask(i)
  {
    if i == 0 {} else if i == 1 {} else if i == 2 {} else if i == 3 {}
    else if i == 4 {} else if i == 5 {} else if i == 6 {} else {}
  }

  /** Bit i of the map is that of the number. */
  lemma {:induction false} BitOfNumber(ma: seq<bv8>, i: nat)
    requires i < 8 * |ma|
    ensures Bit(ma, i) <==> Number(ma) / Pow2(i) % 2 == 1
    decreases |ma|
  {
    hide Tested, Bit, Number, Pow2;
    var n, o := |ma| - 1, ma[|ma| - 1];
    LastOctet(ma, i);
    TestedBehind(Number(ma[..n]), o as nat, 8, i);
    TestedIs(Number(ma), i);
    if i < 8 {
      OctetBit(o, i);
    } else {
      BitOfNumber(ma[..n], i - 8);
      TestedIs(Number(ma[..n]), i - 8);
    }
  }

  lemma LastOctet(ma: seq<bv8>, i: nat)
    requires i < 8 * |ma|
    ensures var n, o := |ma| - 1, ma[|ma| - 1];
      && o as nat < Pow2(8) && Number(ma) == Pow2(8) * Number(ma[..n]) + o as nat
      && (i < 8 ==> (Bit(ma, i) <==> o & (1 << i as bv4) != 0))
      && (i >= 8 ==> (Bit(ma, i) <==> Bit(ma[..n], i - 8)))
  {
    hide Pow2, Bit;
    SmallPowers();
    if i < 8 { BitLate(ma, i); } else { BitEarly(ma, i); }
  }

  lemma BitLate(ma: seq<bv8>, i: nat)
    requires i < 8 && ma != []
    ensures Bit(ma, i) <==> ma[|ma| - 1] & (1 << i as bv4) != 0
  {}

  lemma BitEarly(ma: seq<bv8>, i: nat)
    requires 8 <= i < 8 * |ma|
    ensures Bit(ma, i) <==> Bit(ma[..|ma| - 1], i - 8)
  {
    var j := i - 8;
    assert j / 8 == i / 8 - 1 && j % 8 == i % 8;
  }

  lemma TestedIs(x: nat, i: nat)
    ensures Tested(x, i) <==> x / Pow2(i) % 2 == 1
  {}

  // ---------------------------------------------------------------- what the element says

  /** The serving channels among 1, 2, ... up to n, where 1024 stands for 0. */
  ghost function ServingList(freq: seq<bv8>, n: nat): (r: seq<nat>)
    requires |freq| == CHANNELS && n <= CHANNELS
    ensures |r| <= n
  {
    if n == 0 then []
    else ServingList(freq, n - 1) + if Serving(freq[n % CHANNELS]) then [n % CHANNELS] else []
  }

  /** Those of the first n channels of a list whose bits are set. */
  ghost function Picked(list: seq<nat>, ma: seq<bv8>, n: nat): seq<nat>
    requires n <= |list| && n <= 8 * |ma|
  {
    if n == 0 then [] else Picked(list, ma, n - 1) + if Bit(ma, n - 1) then [list[n - 1]] else []
  }

  /** A channel is picked exactly if its bit is set. */
  lemma {:induction false} PickedBits(list: seq<nat>, ma: seq<bv8>, n: nat, a: nat)
    requires n <= |list| && n <= 8 * |ma|
    ensures a in Picked(list, ma, n) <==> exists i :: 0 <= i < n && list[i] == a && Bit(ma, i)
    ensures |Picked(list, ma, n)| <= n
  {
    if n > 0 { PickedBits(list, ma, n - 1, a); }
  }

  /** The order of the list: 1 to 1023, then 0. */
  ghost function Rank(a: nat): nat {
    if a == 0 then CHANNELS else a
  }

  ghost predicate Ascending(s: seq<nat>) {
    forall i, j :: 0 <= i < j < |s| ==> Rank(s[i]) < Rank(s[j])
  }

  lemma AscendingSnoc(s: seq<nat>, n: nat)
    requires Ascending(s) && 0 < n <= CHANNELS && forall a :: a in s ==> Rank(a) < n
    ensures Ascending(s + [n % CHANNELS]) && Rank(n % CHANNELS) == n
  {
    var t := s + [n % CHANNELS];
    forall i, j | 0 <= i < j < |t| ensures Rank(t[i]) < Rank(t[j]) {
      assert t[i] == s[i] && s[i] in s;
      if j < |s| { assert t[j] == s[j]; }
    }
  }

  lemma {:induction false} ServingHas(freq: seq<bv8>, n: nat, a: nat)
    requires |freq| == CHANNELS && n <= CHANNELS
    ensures a in ServingList(freq, n) <==> a < CHANNELS && Serving(freq[a]) && Rank(a) <= n
    decreases n
  {
    hide Serving;
    if n > 0 { ServingHas(freq, n - 1, a); }
  }

  lemma {:induction false} ServingListIs(freq: seq<bv8>, n: nat)
    requires |freq| == CHANNELS && n <= CHANNELS
    ensures Ascending(ServingList(freq, n))
    ensures forall a: nat :: a in ServingList(freq, n) <==> a < CHANNELS && Serving(freq[a]) && Rank(a) <= n
    decreases n
  {
    hide Serving, Ascending, ServingList;
    forall a: nat ensures a in ServingList(freq, n) <==> a < CHANNELS && Serving(freq[a]) && Rank(a) <= n {
      ServingHas(freq, n, a);
    }
    ServingStep(freq, n);
    if n == 0 {
      NoneAscending();
    } else {
      ServingListIs(freq, n - 1);
      var s := ServingList(freq, n - 1);
      forall a | a in s ensures Rank(a) < n {
        ServingHas(freq, n - 1, a);
      }
      AscendingSnoc(s, n);
      assert ServingList(freq, n) == s || ServingList(freq, n) == s + [n % CHANNELS];
    }
  }

  lemma ServingStep(freq: seq<bv8>, n: nat)
    requires |freq| == CHANNELS && n <= CHANNELS
    ensures n == 0 ==> ServingList(freq, n) == []
    ensures n > 0 ==>
      ServingList(freq, n) in {ServingList(freq, n - 1), ServingList(freq, n - 1) + [n % CHANNELS]}
  {
    if n > 0 { assert ServingList(freq, n - 1) + [] == ServingList(freq, n - 1); }
  }

  lemma NoneAscending()
    ensures Ascending([])
  {}

  /** What is picked keeps the order of the list, so no channel comes twice. */
  lemma {:induction false} PickedAscending(list: seq<nat>, ma: seq<bv8>, n: nat)
    requires n <= |list| && n <= 8 * |ma| && Ascending(list)
    ensures Ascending(Picked(list, ma, n))
    ensures forall x :: x in Picked(list, ma, n) ==> x in list[..n]
  {
    if n > 0 {
      PickedAscending(list, ma, n - 1);
      assert list[..n] == list[..n - 1] + [list[n - 1]];
      forall x | x in Picked(list, ma, n - 1) ensures Rank(x) < Rank(list[n - 1]) {
        var i: nat :| i < n - 1 && list[..n - 1][i] == x;
      }
    }
  }

  lemma AscendingOnce(s: seq<nat>)
    requires Ascending(s)
    ensures forall i, j :: 0 <= i < j < |s| ==> s[i] != s[j]
  {
    forall i, j | 0 <= i < j < |s| ensures s[i] != s[j] {
      assert Rank(s[i]) < Rank(s[j]);
    }
  }

  /** How many serving channels the decoder takes into account. */
  ghost function Considered(freq: seq<bv8>, len: nat): (n: nat)
    requires |freq| == CHANNELS
    ensures n <= |ServingList(freq, CHANNELS)| && n <= 8 * len
  {
    var n := |ServingList(freq, CHANNELS)|;
    if n < 8 * len then n else 8 * len
  }

  /** The hopping sequence an element describes. */
  ghost function Allocation(freq: seq<bv8>, ma: seq<bv8>): seq<nat>
    requires |freq| == CHANNELS
  {
    Picked(ServingList(freq, CHANNELS), ma, Considered(freq, |ma|))
  }

  /**
    The channels of the hopping sequence are exactly the serving ones whose bit is set, each once,
    in ascending order with 0 last.
   */
  lemma AllocationIs(freq: seq<bv8>, ma: seq<bv8>)
    requires |freq| == CHANNELS
    ensures Ascending(Allocation(freq, ma)) && |Allocation(freq, ma)| <= 8 * |ma|
    ensures forall i, j :: 0 <= i < j < |Allocation(freq, ma)| ==> Allocation(freq, ma)[i] != Allocation(freq, ma)[j]
    ensures forall a :: a in Allocation(freq, ma) <==>
      exists i :: 0 <= i < Considered(freq, |ma|) && ServingList(freq, CHANNELS)[i] == a
        && Number(ma) / Pow2(i) % 2 == 1
    ensures forall a :: a in Allocation(freq, ma) ==> a < CHANNELS && Serving(freq[a])
  {
    hide Bit, Pow2, Number;
    var list, n := ServingList(freq, CHANNELS), Considered(freq, |ma|);
    ServingListIs(freq, CHANNELS);
    PickedAscending(list, ma, n);
    AscendingOnce(Allocation(freq, ma));
    forall a ensures a in Allocation(freq, ma) <==> exists i :: 0 <= i < n && list[i] == a && Bit(ma, i) {
      PickedBits(list, ma, n, a);
    }
    forall i: nat | i < n ensures Bit(ma, i) <==> Number(ma) / Pow2(i) % 2 == 1 {
      BitOfNumber(ma, i);
    }
    PickedBits(list, ma, n, 0);
  }

  /** A cell that serves the channels 1 to 9, and 0. */
  ghost function TenChannels(): (freq: seq<bv8>)
    ensures |freq| == CHANNELS
    ensures forall a :: 0 <= a < CHANNELS ==> freq[a] == if a < 10 then FREQ_TYPE_SERV else 0
  {
    seq(CHANNELS, a => if a < 10 then FREQ_TYPE_SERV else 0)
  }

  lemma {:induction false} NineServing(n: nat)
    requires n < CHANNELS
    ensures ServingList(TenChannels(), n) == seq(if n < 9 then n else 9, i => i + 1)
  {
    hide TenChannels;
    if n > 0 {
      NineServing(n - 1);
      assert Serving(TenChannels()[n % CHANNELS]) <==> 1 <= n < 10;
    }
  }

  lemma TenServing()
    ensures ServingList(TenChannels(), CHANNELS) == [1, 2, 3, 4, 5, 6, 7, 8, 9, 0]
  {
    hide TenChannels;
    NineServing(CHANNELS - 1);
    assert Serving(TenChannels()[0]);
  }

  /** The element 02 05 in such a cell: bits 0, 2 and 9, so the channels 1, 3 and, as the last one, 0. */
  lemma TwoOctets()
    ensures Number([0x02, 0x05]) == 517 && Allocation(TenChannels(), [0x02, 0x05]) == [1, 3, 0]
  {
    hide Bit, TenChannels, ServingList;
    var ma: seq<bv8> := [0x02, 0x05];
    assert ma[..1] == [0x02] && ma[..1][..0] == [];
    assert Number(ma[..1]) == 2;
    TenServing();
    TenBits(ma);
    TenPicked(ServingList(TenChannels(), CHANNELS), ma);
  }

  lemma TenBits(ma: seq<bv8>)
    requires ma == [0x02, 0x05]
    ensures forall i :: 0 <= i < 10 ==> (Bit(ma, i) <==> i in {0, 2, 9})
  {
    forall i | 0 <= i < 10 ensures Bit(ma, i) <==> i in {0, 2, 9} {
      ShiftIsMask(i % 8);
    }
  }

  lemma TenPicked(list: seq<nat>, ma: seq<bv8>)
    requires |ma| == 2 && list == [1, 2, 3, 4, 5, 6, 7, 8, 9, 0]
    requires forall i :: 0 <= i < 10 ==> (Bit(ma, i) <==> i in {0, 2, 9})
    ensures Picked(list, ma, 10) == [1, 3, 0]
  {
    hide Bit;
    assert Picked(list, ma, 1) == [1];
    assert Picked(list, ma, 2) == [1];
    assert Picked(list, ma, 3) == [1, 3];
    assert Picked(list, ma, 4) == [1, 3];
    assert Picked(list, ma, 6) == Picked(list, ma, 5) == [1, 3];
    assert Picked(list, ma, 8) == Picked(list, ma, 7) == [1, 3];
    assert Picked(list, ma, 9) == [1, 3];
  }

  // ---------------------------------------------------------------- the decoder of the stack

  const EINVAL: int := 22

  /** The mask after the flags of the hopping channels were set anew. */
  ghost function Flagged(mask: bv8, hopping: bool): bv8 {
    if hopping then Marked(Cleared(mask)) else Cleared(mask)
  }

  /**
    gsm48_decode_mobile_alloc; inside says that it stays within its list of serving channels. It
    does not if the element is empty and there are any: the source then writes behind an empty
    list; here the decoding ends.
   */
  method DecodeMobileAlloc(freq: array<bv8>, ma: seq<bv8>, hopping: array<nat>, oldLen: nat, si4: bool)
    returns (rc: int, hoppLen: nat, inside: bool)
    requires freq.Length == CHANNELS && hopping.Length >= 64 && freq as object != hopping
    modifies freq, hopping
    ensures inside <==> |ma| > 0 || ServingList(old(freq[..]), CHANNELS) == []
    ensures |ma| > 8 ==>
      && rc == -EINVAL && hoppLen == oldLen && freq[..] == old(freq[..])
      && hopping[..] == old(hopping[..])
    ensures |ma| <= 8 && inside ==> rc == 0 && hoppLen <= 64 && hopping[..hoppLen] == Allocation(old(freq[..]), ma)
    ensures |ma| <= 8 && !si4 ==> freq[..] == old(freq[..])
    ensures |ma| <= 8 && inside && si4 ==>
      forall a :: 0 <= a < CHANNELS ==> freq[a] == Flagged(old(freq[a]), a in hopping[..hoppLen])
  {
    if |ma| > 8 {
      return -EINVAL, oldLen, true;
    }
    rc, hoppLen := 0, 0;
    hide Bit, Cleared, Marked, Serving, Picked, ServingList;
    TabulaRasa(freq, si4);
    ghost var list := ServingList(freq[..], CHANNELS);
    var f, j;
    f, j, inside := ServingChannels(freq, 8 * |ma|);
    if !inside {
      return;
    }
    PickedPrefix(f[..j], list, ma, j);
    hoppLen := FillHopping(freq, ma, hopping, f, j, si4);
  }

  /** Forgets the hopping flags, if they are to be set anew. */
  method TabulaRasa(freq: array<bv8>, si4: bool)
    requires freq.Length == CHANNELS
    modifies freq
    ensures ServingList(freq[..], CHANNELS) == ServingList(old(freq[..]), CHANNELS)
    ensures !si4 ==> freq[..] == old(freq[..])
    ensures si4 ==> forall a :: 0 <= a < CHANNELS ==> freq[a] == Cleared(old(freq[a]))
  {
    hide Cleared, Serving;
    if si4 {
      ClearAll(freq);
      forall a | 0 <= a < CHANNELS ensures Serving(freq[..][a]) == Serving(old(freq[..])[a]) {
        OneFlag(old(freq[..])[a]);
      }
      ServingSame(old(freq[..]), freq[..], CHANNELS);
    }
  }

  lemma {:induction false} ServingSame(freq: seq<bv8>, freq': seq<bv8>, n: nat)
    requires |freq| == |freq'| == CHANNELS && n <= CHANNELS && forall a :: 0 <= a < CHANNELS ==>
      Serving(freq[a]) == Serving(freq'[a])
    ensures ServingList(freq, n) == ServingList(freq', n)
  {
    if n > 0 { ServingSame(freq, freq', n - 1); }
  }

  lemma {:induction false} PickedPrefix(list: seq<nat>, longer: seq<nat>, ma: seq<bv8>, n: nat)
    requires n <= |list| && n <= 8 * |ma| && list <= longer
    ensures Picked(list, ma, n) == Picked(longer, ma, n)
  {
    if n > 0 { PickedPrefix(list, longer, ma, n - 1); }
  }

  method ClearAll(freq: array<bv8>)
    requires freq.Length == CHANNELS
    modifies freq
    ensures forall a :: 0 <= a < CHANNELS ==> freq[a] == Cleared(old(freq[a]))
  {
    var i := 0;
    while i < CHANNELS
      invariant i <= CHANNELS
      invariant forall a :: 0 <= a < i ==> freq[a] == Cleared(old(freq[a]))
      invariant forall a :: i <= a < CHANNELS ==> freq[a] == old(freq[a])
    {
      freq[i] := Cleared(freq[i]);
      i := i + 1;
    }
  }

  /** The list of the serving channels, as far as the element can speak of them. */
  method ServingChannels(freq: array<bv8>, max: nat) returns (f: array<nat>, j: nat, inside: bool)
    requires freq.Length == CHANNELS
    ensures inside <==> max > 0 || ServingList(freq[..], CHANNELS) == []
    ensures fresh(f) && f.Length == max && j <= max && j <= |ServingList(freq[..], CHANNELS)|
    ensures f[..j] == ServingList(freq[..], CHANNELS)[..j]
    ensures inside && j < max ==> j == |ServingList(freq[..], CHANNELS)|
    ensures forall k :: 0 <= k < j ==> f[k] < CHANNELS
  {
    f := new nat[max];
    j, inside := 0, true;
    var i := 1;
    while i <= CHANNELS
      invariant 1 <= i <= CHANNELS + 1 && j <= max && (j == max ==> max == 0)
      invariant f[..j] == ServingList(freq[..], i - 1)
      invariant forall k :: 0 <= k < j ==> f[k] < CHANNELS
    {
      if Serving(freq[i % CHANNELS]) {
        ServingGrows(freq[..], i, CHANNELS);
        if j == max {
          inside := false;
          return;
        }
        f[j] := i % CHANNELS;
        j := j + 1;
        if j == max {
          return;
        }
      }
      i := i + 1;
    }
  }

  lemma {:induction false} ServingGrows(freq: seq<bv8>, m: nat, n: nat)
    requires |freq| == CHANNELS && m <= n <= CHANNELS
    ensures ServingList(freq, m) <= ServingList(freq, n)
    decreases n
  {
    if m < n { ServingGrows(freq, m, n - 1); }
  }

  /** Fills the hopping table up to the first bit beyond the list. */
  method FillHopping(freq: array<bv8>, ma: seq<bv8>, hopping: array<nat>, f: array<nat>, j: nat, si4: bool)
    returns (hoppLen: nat)
    requires freq.Length == CHANNELS && hopping.Length >= 64 && |ma| <= 8
    requires j <= f.Length == 8 * |ma| && f != hopping && freq as object != hopping && forall k :: 0 <= k < j ==>
      f[k] < CHANNELS
    modifies freq, hopping
    ensures hoppLen <= 64 && hopping[..hoppLen] == Picked(old(f[..j]), ma, j)
    ensures !si4 ==> freq[..] == old(freq[..])
    ensures si4 ==> forall a :: 0 <= a < CHANNELS ==>
      freq[a] == if a in hopping[..hoppLen] then Marked(old(freq[a])) else old(freq[a])
  {
    hide Bit, Marked;
    hoppLen := 0;
    var i := 0;
    ghost var list := f[..j];
    while i < 8 * |ma|
      invariant i <= 8 * |ma| && hoppLen <= i && f[..j] == list
      invariant hopping[..hoppLen] == Picked(list, ma, if i < j then i else j)
      invariant !si4 ==> freq[..] == old(freq[..])
      invariant si4 ==> forall a :: 0 <= a < CHANNELS ==>
        freq[a] == if a in hopping[..hoppLen] then Marked(old(freq[a])) else old(freq[a])
    {
      if Bit(ma, i) {
        if i >= j {
          break;
        }
        assert f[i] == list[i];
        OneFlag(old(freq[f[i]]));
        hopping[hoppLen] := f[i];
        hoppLen := hoppLen + 1;
        assert hopping[..hoppLen] == hopping[..hoppLen - 1] + [f[i]];
        if si4 {
          freq[f[i]] := Marked(freq[f[i]]);
        }
      }
      i := i + 1;
    }
  }

  // ---------------------------------------------------------------- the decoder of the scanner

  /**
    The loop inside gsm48_rx_imm_ass; inside says that it stays within the element and its own list
    of 64. It has no limit on the serving channels or the element; here it ends where it would leave.
   */
  method DecodeInAssignment(cell: array<bv8>, ma: seq<bv8>) returns (r: array<nat>, maLen: nat, inside: bool)
    requires cell.Length == CHANNELS
    ensures inside <==> |ServingList(cell[..], CHANNELS)| <= 8 * |ma| && |Allocation(cell[..], ma)| <= 64
    ensures maLen <= r.Length
    ensures if inside then r[..maLen] == Allocation(cell[..], ma) else r[..maLen] <= Allocation(cell[..], ma)
  {
    hide Bit, Serving;
    r := new nat[64];
    maLen := 0;
    var i, j := 1, 0;
    ServingGrows(cell[..], 0, CHANNELS);
    ghost var list := ServingList(cell[..], CHANNELS);
    ghost var n := Considered(cell[..], |ma|);
    while i <= CHANNELS
      invariant 1 <= i <= CHANNELS + 1 && maLen <= j <= 8 * |ma| && maLen <= 64
      invariant j == |ServingList(cell[..], i - 1)| && ServingList(cell[..], i - 1) <= list
      invariant r[..maLen] == Picked(list, ma, j)
    {
      var arfcn := i % CHANNELS;
      ServingGrows(cell[..], i, CHANNELS);
      if Serving(cell[arfcn]) {
        PickedGrows(list, ma, j, n);
        if j >= 8 * |ma| {
          return r, maLen, false;
        }
        if Bit(ma, j) {
          if maLen == 64 {
            PickedGrows(list, ma, j + 1, n);
            return r, maLen, false;
          }
          r[maLen] := arfcn;
          maLen := maLen + 1;
          assert r[..maLen] == r[..maLen - 1] + [arfcn];
        }
        j := j + 1;
      }
      i := i + 1;
    }
    inside := true;
  }

  lemma {:induction false} PickedGrows(list: seq<nat>, ma: seq<bv8>, m: nat, n: nat)
    requires m <= n <= |list| && n <= 8 * |ma|
    ensures Picked(list, ma, m) <= Picked(list, ma, n)
    decreases n
  {
    if m < n { PickedGrows(list, ma, m, n - 1); }
  }

  /** That loop stays within the element exactly if the cell has no more channels than the element has bits. */
  lemma AssignmentInBounds(cell: seq<bv8>, ma: seq<bv8>)
    requires |cell| == CHANNELS
    ensures (forall j :: 0 <= j < |ServingList(cell, CHANNELS)| ==> 0 <= |ma| - j / 8 - 1 < |ma|)
      <==> |ServingList(cell, CHANNELS)| <= 8 * |ma|
  {
    var n := |ServingList(cell, CHANNELS)|;
    if n > 8 * |ma| {
      assert |ma| - (8 * |ma|) / 8 - 1 < 0;
    }
  }

  /** A cell that serves all channels, and an element of one octet: the index becomes negative. */
  lemma AssignmentOutside()
    ensures var cell := seq(CHANNELS, _ => FREQ_TYPE_SERV);
      |ServingList(cell, CHANNELS)| == CHANNELS && |[1 as bv8]| - 8 / 8 - 1 < 0
    ensures var cell := seq(CHANNELS, _ => FREQ_TYPE_SERV);
      !forall j :: 0 <= j < |ServingList(cell, CHANNELS)| ==> 0 <= |[1 as bv8]| - j / 8 - 1 < |[1 as bv8]|
  {
    var cell := seq(CHANNELS, _ => FREQ_TYPE_SERV);
    AllServing(cell, CHANNELS);
    AssignmentInBounds(cell, [1]);
  }

  lemma {:induction false} AllServing(cell: seq<bv8>, n: nat)
    requires |cell| == CHANNELS && n <= CHANNELS && forall a :: 0 <= a < CHANNELS ==> Serving(cell[a])
    ensures |ServingList(cell, n)| == n
  {
    if n > 0 { AllServing(cell, n - 1); }
  }
}
