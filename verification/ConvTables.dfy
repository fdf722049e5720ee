/**
  What the tables of a code mean for the encoder: which bits a puncture list removes, which branches
  the termination takes, and, for the tables of a shift register, that a tail-biting word closes.
 */
module ConvTables {
  import opened Binary
  import opened Options
  import opened ConvCode
  import opened ConvEncode

  // ---------------------------------------------------------------- puncturing

  /** Of an increasing list, exactly the bits it names are removed. */
  lemma DroppedIsListed(list: seq<int>, total: nat, i: nat)
    requires Terminated(list) && IncreasingBelow(list, total)
    ensures Dropped(list, 0, 0, i) <==> i in list
  {
    ListPosPassed(list, i);
    ListPosCounts(list, total, i);
  }

  // ---------------------------------------------------------------- termination

  /** With tables for the termination, each step sends and goes where they say. */
  lemma FlushByTables(code: Code, s: nat, m: nat)
    requires code.Valid() && s < code.States() && code.termTables.Some?
    ensures var t := EndState(code, s, TailPath(m));
      && EndState(code, s, TailPath(m + 1)) == code.termTables.value.state[t]
      && Codeword(code, s, TailPath(m + 1))
        == Codeword(code, s, TailPath(m)) + Symbol(code.termTables.value.output[t], code.n)
  {
    hide Symbol;
    assert TailPath(m + 1)[..m] == TailPath(m) && TailPath(m + 1)[m] == Tail;
  }

  /** Without them, the termination is that of zeros. */
  lemma {:induction false} FlushByZeros(code: Code, s: nat, m: nat)
    requires code.Valid() && s < code.States() && code.termTables.None?
    ensures var zeros := DataPath(seq(m, _ => false));
      && EndState(code, s, TailPath(m)) == EndState(code, s, zeros)
      && Codeword(code, s, TailPath(m)) == Codeword(code, s, zeros)
  {
    hide Symbol;
    if m > 0 {
      FlushByZeros(code, s, m - 1);
      assert TailPath(m)[..m - 1] == TailPath(m - 1);
      assert DataPath(seq(m, _ => false))[..m - 1] == DataPath(seq(m - 1, _ => false));
    }
  }

  // ---------------------------------------------------------------- shift registers

  /** Tables of a shift register: the state is the K - 1 bits read last, the newest of them lowest. */
  predicate ShiftRegister(code: Code)
    requires code.Valid()
  {
    forall s :: 0 <= s < code.States() ==>
      && code.nextState[s][0] == 2 * s % code.States()
      && code.nextState[s][1] == (2 * s + 1) % code.States()
  }

  function Modulo(v: nat, p: nat): nat
    requires p > 0
  {
    v % p
  }

  lemma ShiftNext(code: Code, s: nat, b: Bit)
    requires code.Valid() && ShiftRegister(code) && s < code.States()
    ensures code.Next(s, Data(b)) == Modulo(2 * s + Index(b), Pow2(code.k - 1))
  {}

  /** The number that bits spell, the first of them the highest. */
  lemma {:induction false} FirstBitHighest(bits: seq<Bit>)
    requires bits != []
    ensures LoadedState(bits) == (if bits[0] then Pow2(|bits| - 1) else 0) + LoadedState(bits[1..])
  {
    var m := |bits| - 1;
    if m > 0 {
      FirstBitHighest(bits[..m]);
      assert bits[..m][1..] == bits[1..][..m - 1];
    }
  }

  /** One more bit in, the oldest one out. */
  lemma ShiftedIn(window: seq<Bit>, b: Bit)
    requires window != []
    ensures Modulo(2 * LoadedState(window) + Index(b), Pow2(|window|)) == LoadedState(window[1..] + [b])
  {
    hide Pow2, LoadedState, Modulo;
    var n, rest := |window| - 1, window[1..];
    FirstBitHighest(window);
    LastBitLowest(rest, b);
    Doubled(n);
    assert |rest + [b]| == n + 1;
    TopBitOut(window[0], LoadedState(rest), Index(b), Pow2(n));
  }

  lemma TopBitOut(top: bool, low: nat, b: nat, p: nat)
    requires 2 * low + b < 2 * p
    ensures Modulo(2 * ((if top then p else 0) + low) + b, 2 * p) == 2 * low + b
  {
    hide Modulo;
    Remainder(2 * low + b, 2 * p);
    assert 2 * ((if top then p else 0) + low) + b == 2 * low + b + if top then 2 * p else 0;
  }

  lemma LastBitLowest(bits: seq<Bit>, b: Bit)
    ensures LoadedState(bits + [b]) == 2 * LoadedState(bits) + Index(b)
  {
    assert (bits + [b])[..|bits|] == bits;
  }

  lemma Doubled(n: nat)
    ensures Pow2(n + 1) == 2 * Pow2(n)
  {}

  lemma Remainder(v: nat, p: nat)
    requires v < p
    ensures Modulo(v, p) == v && Modulo(v + p, p) == v
  {
    DivIs(v, p, 0, v);
    DivIs(v + p, p, 1, v);
    Parts(v, p);
    Parts(v + p, p);
  }

  lemma Parts(v: nat, p: nat)
    requires p > 0
    ensures Modulo(v, p) == v - p * (v / p)
  {}

  /** After at least K - 1 bits the state is what the last K - 1 of them spell, wherever it started. */
  lemma {:induction false} StateIsWindow(code: Code, s: nat, bits: seq<Bit>)
    requires code.Valid() && ShiftRegister(code) && s < code.States() && |bits| >= code.k - 1
    ensures EndState(code, s, DataPath(bits)) == LoadedState(bits[|bits| - (code.k - 1)..])
    decreases |bits|
  {
    var start: seq<Bit> := WindowOf(s, code.k - 1);
    WindowKept(code, s, start, bits);
    assert (start + bits)[|bits|..] == bits[|bits| - (code.k - 1)..];
  }

  /** The bits a state stands for. */
  function WindowOf(s: nat, n: nat): (w: seq<Bit>)
    requires s < Pow2(n)
    ensures |w| == n && LoadedState(w) == s
  {
    if n == 0 then []
    else
      var w := WindowOf(s / 2, n - 1) + [s % 2 == 1];
      assert w[..n - 1] == WindowOf(s / 2, n - 1);
      w
  }

  lemma {:induction false} WindowKept(code: Code, s: nat, start: seq<Bit>, bits: seq<Bit>)
    requires code.Valid() && ShiftRegister(code) && s < code.States() && |start| == code.k - 1
      && LoadedState(start) == s
    ensures EndState(code, s, DataPath(bits)) == LoadedState((start + bits)[|bits|..])
    decreases |bits|
  {
    hide ShiftRegister, Modulo, Pow2, Code.Valid, LoadedState, Code.Next;
    if bits == [] {
      assert (start + bits)[0..] == start;
    } else {
      var m := |bits| - 1;
      WindowKept(code, s, start, bits[..m]);
      assert DataPath(bits)[..m] == DataPath(bits[..m]);
      var window := (start + bits[..m])[m..];
      ShiftNext(code, LoadedState(window), bits[m]);
      if window != [] {
        ShiftedIn(window, bits[m]);
        assert window[1..] + [bits[m]] == (start + bits)[|bits|..];
      } else {
        assert (start + bits)[|bits|..] == [];
        OneState(code, code.Next(s, Data(bits[m])));
      }
    }
  }

  lemma OneState(code: Code, t: nat)
    requires code.Valid() && t < code.States() && code.k == 1
    ensures t == 0 == LoadedState([])
  {}

  /** A tail-biting message ends in the state it starts in, and no other start state does that. */
  lemma TailBitingCloses(code: Code, bits: seq<Bit>, s: nat)
    requires code.Valid() && ShiftRegister(code) && code.term == TailBiting && |bits| >= code.k - 1 && s < code.States()
    ensures EndState(code, s, MessagePath(code, bits)) == s <==> s == StartState(code, bits)
  {
    StateIsWindow(code, s, bits);
  }
}
