/** Powers of two, and the bits of an octet. */
module Binary {

  function Pow2(n: nat): (p: nat)
    ensures p > 0
  {
    if n == 0 then 1 else 2 * Pow2(n - 1)
  }

  lemma Pow2Monotone(a: nat, b: nat)
    requires a <= b
    ensures Pow2(a) <= Pow2(b)
    decreases b
  {
    if a < b { Pow2Monotone(a, b - 1); }
  }

  /** 1 << n */
  function Mask(n: nat): bv8
    requires n < 8
  {
    match n
    case 0 => 0x01
    case 1 => 0x02
    case 2 => 0x04
    case 3 => 0x08
    case 4 => 0x10
    case 5 => 0x20
    case 6 => 0x40
    case _ => 0x80
  }

  predicate BitOf(b: bv8, n: nat)
    requires n < 8
  {
    b & Mask(n) != 0
  }

  lemma SmallPowers()
    ensures Pow2(0) == 1 && Pow2(1) == 2 && Pow2(2) == 4 && Pow2(3) == 8
    ensures Pow2(4) == 16 && Pow2(5) == 32 && Pow2(6) == 64 && Pow2(7) == 128 && Pow2(8) == 256
  {
    assert Pow2(3) == 8;
    assert Pow2(5) == 32;
  }

  /** A bit of an octet is that of the number it stands for. */
  lemma BitOfIs(o: bv8, n: nat)
    requires n < 8
    ensures BitOf(o, n) <==> o as nat / Pow2(n) % 2 == 1
  {
    hide Pow2, BitOf, Mask;
    SmallPowers();
    match n
    case 0 => Bit0Is(o);
    case 1 => Bit1Is(o);
    case 2 => Bit2Is(o);
    case 3 => Bit3Is(o);
    case 4 => Bit4Is(o);
    case 5 => Bit5Is(o);
    case 6 => Bit6Is(o);
    case _ => Bit7Is(o);
  }

  lemma Bit0Is(o: bv8)
    ensures BitOf(o, 0) <==> o as nat / 1 % 2 == 1
  {}

  lemma Bit1Is(o: bv8)
    ensures BitOf(o, 1) <==> o as nat / 2 % 2 == 1
  {}

  lemma Bit2Is(o: bv8)
    ensures BitOf(o, 2) <==> o as nat / 4 % 2 == 1
  {}

  lemma Bit3Is(o: bv8)
    ensures BitOf(o, 3) <==> o as nat / 8 % 2 == 1
  {}

  lemma Bit4Is(o: bv8)
    ensures BitOf(o, 4) <==> o as nat / 16 % 2 == 1
  {}

  lemma Bit5Is(o: bv8)
    ensures BitOf(o, 5) <==> o as nat / 32 % 2 == 1
  {}

  lemma Bit6Is(o: bv8)
    ensures BitOf(o, 6) <==> o as nat / 64 % 2 == 1
  {}

  lemma Bit7Is(o: bv8)
    ensures BitOf(o, 7) <==> o as nat / 128 % 2 == 1
  {}

  // ---------------------------------------------------------------- dividing

  lemma Halved(ui: nat, k: nat)
    ensures ui / 2 / Pow2(k) == ui / Pow2(k + 1)
  {
    DivTwice(ui, Pow2(k));
  }

  lemma DivTwice(a: nat, p: nat)
    requires p > 0
    ensures a / 2 / p == a / (2 * p)
  {
    var q := a / (2 * p);
    var r := a - q * (2 * p);
    assert 0 <= r < 2 * p && a == 2 * (q * p) + r;
    assert a / 2 == q * p + r / 2;
    assert r / 2 < p;
    DivIs(a / 2, p, q, r / 2);
  }

  lemma DivIs(a: nat, p: nat, q: nat, r: nat)
    requires p > 0 && a == q * p + r && r < p
    ensures a / p == q
  {
    if a / p < q { Below(a / p, q, p); }
    if q < a / p { Below(q, a / p, p); }
  }

  lemma {:induction false} Below(x: nat, y: nat, p: nat)
    requires x < y
    ensures x * p + p <= y * p
    decreases y
  {
    assert y * p == (y - 1) * p + p;
    if x < y - 1 { Below(x, y - 1, p); }
  }
}
