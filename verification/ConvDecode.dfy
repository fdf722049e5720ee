/**
  The Viterbi decoder: reinsertion of punctured bits, the trellis scan over saturating
  accumulated errors, and the traceback through the state history.
 */
module ConvDecode {
  import opened Binary
  import opened Options
  import opened ConvCode
  import opened ConvTrellis

  // ---------------------------------------------------------------- received steps

  /** m coded bits rebuilt from the soft bits that were sent; a punctured one reads as 0. */
  function Received(list: seq<int>, p: nat, r: nat, m: nat, input: seq<int>): (sym: seq<int>)
    requires Terminated(list) && p < |list|
    requires m - (ListPos(list, p, r, m) - p) <= |input|
    ensures |sym| == m
  {
    if m == 0 then []
    else
      var q := ListPos(list, p, r, m - 1);
      Received(list, p, r, m - 1, input) + [if list[q] == r + m - 1 then 0 else input[m - 1 - (q - p)]]
  }

  lemma StatesFit(code: Code)
    requires code.Valid()
    ensures 1 <= code.States() <= 256
    ensures code.k <= 8 ==> code.States() <= 128
  {
    Pow2Monotone(code.k - 1, 8);
    if code.k <= 8 { Pow2Monotone(code.k - 1, 7); }
    assert Pow2(7) == 128 && Pow2(8) == 256 by {
      assert Pow2(3) == 8;
      assert Pow2(5) == 32;
    }
  }

  /** The number of coded bits in m steps. */
  function CodedBits(code: Code, m: nat): nat {
    m * code.n
  }

  /** The list position after m steps. */
  function PosAfter(code: Code, m: nat): (q: nat)
    requires code.Valid()
    ensures q < |code.Punctures()| && q <= CodedBits(code, m)
  {
    ListPos(code.Punctures(), 0, 0, CodedBits(code, m))
  }

  /** The number of soft bits that m steps consume. */
  function UsedBy(code: Code, m: nat): (u: nat)
    requires code.Valid()
  {
    CodedBits(code, m) - PosAfter(code, m)
  }

  lemma StepUse(code: Code, m: nat)
    requires code.Valid()
    ensures CodedBits(code, m + 1) == CodedBits(code, m) + code.n
    ensures PosAfter(code, m + 1) == ListPos(code.Punctures(), PosAfter(code, m), CodedBits(code, m), code.n)
    ensures UsedBy(code, m + 1)
         == UsedBy(code, m) + code.n - (PosAfter(code, m + 1) - PosAfter(code, m))
    ensures UsedBy(code, m) <= UsedBy(code, m + 1)
  {
    hide ListPos, CodedBits, Code.Punctures;
    CodedSucc(code, m);
    ListPosConcat(code.Punctures(), 0, 0, CodedBits(code, m), code.n);
  }

  lemma CodedSucc(code: Code, m: nat)
    ensures CodedBits(code, m + 1) == CodedBits(code, m) + code.n
  {
    MulSucc(m, code.n);
  }

  /** The steps that the received soft bits describe; tails tells termination steps apart. */
  function StepsOf(code: Code, tails: seq<bool>, input: seq<int>): (steps: seq<Step>)
    requires code.Valid() && UsedBy(code, |tails|) <= |input|
    ensures |steps| == |tails| && WellFormed(code, steps)
  {
    if tails == [] then []
    else
      var m := |tails| - 1;
      StepUse(code, m);
      StepsOf(code, tails[..m], input)
        + [Step(Received(code.Punctures(), PosAfter(code, m), CodedBits(code, m), code.n, input[UsedBy(code, m)..]),
                tails[m])]
  }

  lemma {:induction false} ReceivedPrefix(list: seq<int>, p: nat, r: nat, m: nat, a: seq<int>, b: seq<int>)
    requires Terminated(list) && p < |list|
    requires m - (ListPos(list, p, r, m) - p) <= |a|
    ensures Received(list, p, r, m, a + b) == Received(list, p, r, m, a)
  {
    if m > 0 { ReceivedPrefix(list, p, r, m - 1, a, b); }
  }

  /** Soft bits that come later do not change the steps already read. */
  lemma {:induction false} StepsPrefix(code: Code, tails: seq<bool>, a: seq<int>, b: seq<int>)
    requires code.Valid() && UsedBy(code, |tails|) <= |a|
    ensures StepsOf(code, tails, a + b) == StepsOf(code, tails, a)
  {
    hide UsedBy, PosAfter, CodedBits, Received, ListPos, Code.Valid;
    if tails != [] {
      var m := |tails| - 1;
      StepUse(code, m);
      StepsPrefix(code, tails[..m], a, b);
      var u := UsedBy(code, m);
      ReceivedPrefix(code.Punctures(), PosAfter(code, m), CodedBits(code, m), code.n, a[u..], b);
      assert (a + b)[u..] == a[u..] + b;
    }
  }

  /** The step read from input when m steps went before. */
  function StepAt(code: Code, m: nat, input: seq<int>, tail: bool): (step: Step)
    requires code.Valid() && UsedBy(code, m + 1) - UsedBy(code, m) <= |input|
    ensures |step.sym| == code.n
  {
    StepUse(code, m);
    Step(Received(code.Punctures(), PosAfter(code, m), CodedBits(code, m), code.n, input), tail)
  }

  lemma StepsUnfold(code: Code, tails: seq<bool>, tail: bool, input: seq<int>)
    requires code.Valid() && UsedBy(code, |tails| + 1) <= |input|
    ensures UsedBy(code, |tails|) <= UsedBy(code, |tails| + 1)
    ensures StepsOf(code, tails + [tail], input)
         == StepsOf(code, tails, input) + [StepAt(code, |tails|, input[UsedBy(code, |tails|)..], tail)]
  {
    hide UsedBy, PosAfter, CodedBits, Received, ListPos, Code.Valid;
    StepUse(code, |tails|);
    assert (tails + [tail])[..|tails|] == tails;
  }

  /** Reading one more step, when everything before it has been consumed. */
  lemma StepsSnoc(code: Code, tails: seq<bool>, a: seq<int>, b: seq<int>, tail: bool)
    requires code.Valid() && |a| == UsedBy(code, |tails|)
    requires |b| == UsedBy(code, |tails| + 1) - UsedBy(code, |tails|)
    ensures StepsOf(code, tails + [tail], a + b)
         == StepsOf(code, tails, a) + [StepAt(code, |tails|, b, tail)]
  {
    hide UsedBy, PosAfter, CodedBits, Received, ListPos, Code.Valid, StepsOf, StepAt;
    StepsUnfold(code, tails, tail, a + b);
    StepsPrefix(code, tails, a, b);
    assert (a + b)[|a|..] == b;
  }

  // ---------------------------------------------------------------- the output mask

  function FirstMask(k: nat): bv8
    requires k < 8
  {
    1 << k
  }

  function NextMask(m: bv8): bv8 {
    m >> 1
  }

  predicate Selects(m: bv8, out: bv8) {
    out & m != 0
  }

  lemma MaskSelects(out: bv8, k: nat)
    requires k < 8
    ensures Selects(Mask(k), out) <==> BitOf(out, k)
    ensures FirstMask(k) == Mask(k) && (k > 0 ==> NextMask(Mask(k)) == Mask(k - 1))
  {
    if k == 0 {} else if k == 1 {} else if k == 2 {} else if k == 3 {}
    else if k == 4 {} else if k == 5 {} else if k == 6 {} else {}
  }

  lemma {:induction false} WordErrSnoc(sym: seq<int>, word: seq<Bit>, j: nat)
    requires |sym| == |word| && j < |sym|
    ensures WordErr(sym[..j + 1], word[..j + 1]) == WordErr(sym[..j], word[..j]) + BitErr(sym[j], word[j])
  {
    assert sym[..j + 1][..j] == sym[..j] && word[..j + 1][..j] == word[..j];
  }

  lemma SymbolAt(out: bv8, n: nat, j: nat)
    requires j < n <= 8
    ensures Symbol(out, n)[j] == BitOf(out, n - 1 - j)
  {}

  /** The error one step adds along a branch with output word out. */
  method AddErr(start: nat, sym: seq<int>, out: bv8, n: nat) returns (nae: nat)
    requires 1 <= n <= 8 && |sym| == n
    ensures nae == start + WordErr(sym, Symbol(out, n))
  {
    hide WordErr, BitErr, Symbol, BitOf, Mask, FirstMask, NextMask, Selects;
    ghost var word := Symbol(out, n);
    WordErrEnds(sym, word);
    nae := start;
    MaskSelects(out, n - 1);
    var m := FirstMask(n - 1);
    for j := 0 to n
      invariant j < n ==> m == Mask(n - 1 - j)
      invariant nae == start + WordErr(sym[..j], word[..j])
    {
      WordErrSnoc(sym, word, j);
      SymbolAt(out, n, j);
      MaskSelects(out, n - 1 - j);
      var e := SoftErr(sym[j], Selects(m, out));
      nae := nae + e;
      m := NextMask(m);
    }
  }

  lemma WordErrEnds(sym: seq<int>, word: seq<Bit>)
    requires |sym| == |word|
    ensures WordErr(sym[..0], word[..0]) == 0
    ensures sym[..|sym|] == sym && word[..|word|] == word
  {}

  /** The squared and scaled distance of one soft bit; a zero soft bit adds nothing. */
  method SoftErr(soft: int, bit: bool) returns (e: nat)
    ensures e == BitErr(soft, bit)
  {
    e := 0;
    if soft != 0 {
      var ov := if bit then -127 else 127;
      var d := soft - ov;
      e := Squared(d) / 512;
    }
  }

  // ---------------------------------------------------------------- the decoder object

  /** The rows of the state history, one after the other. */
  ghost function Flat(rows: seq<seq<nat>>): seq<nat> {
    if rows == [] then [] else Flat(rows[..|rows| - 1]) + rows[|rows| - 1]
  }

  lemma {:induction false} FlatLength(rows: seq<seq<nat>>, ns: nat)
    requires forall r :: 0 <= r < |rows| ==> |rows[r]| == ns
    ensures |Flat(rows)| == |rows| * ns
  {
    if rows != [] {
      FlatLength(rows[..|rows| - 1], ns);
      MulSucc(|rows| - 1, ns);
    }
  }

  lemma FlatSnoc(rows: seq<seq<nat>>, row: seq<nat>)
    ensures Flat(rows + [row]) == Flat(rows) + row
  {
    assert (rows + [row])[..|rows|] == rows;
  }

  lemma {:induction false} FlatAt(rows: seq<seq<nat>>, ns: nat, r: nat, t: nat)
    requires (forall i :: 0 <= i < |rows| ==> |rows[i]| == ns) && r < |rows| && t < ns
    ensures r * ns + t < |Flat(rows)| && Flat(rows)[r * ns + t] == rows[r][t]
  {
    var m := |rows| - 1;
    FlatLength(rows[..m], ns);
    if r < m { FlatAt(rows[..m], ns, r, t); }
  }

  /** m steps of one kind. */
  function Marks(m: nat, tail: bool): (tails: seq<bool>)
    ensures |tails| == m
  {
    seq(m, i => tail)
  }

  lemma {:induction false} StepTail(code: Code, tails: seq<bool>, input: seq<int>, i: nat)
    requires code.Valid() && UsedBy(code, |tails|) <= |input| && i < |tails|
    ensures StepsOf(code, tails, input)[i].tail == tails[i]
  {
    hide UsedBy, PosAfter, CodedBits, Received, ListPos, Code.Valid;
    StepUse(code, |tails| - 1);
    if i < |tails| - 1 { StepTail(code, tails[..|tails| - 1], input, i); }
  }

  lemma UseGrows(code: Code, a: nat, b: nat)
    requires code.Valid() && a <= b
    ensures UsedBy(code, a) <= UsedBy(code, b)
    decreases b
  {
    hide UsedBy, PosAfter, CodedBits, Code.Valid;
    if a < b {
      StepUse(code, b - 1);
      UseGrows(code, a, b - 1);
    }
  }

  /** The accumulated errors before the first step. */
  function StartErrors(code: Code, startState: int): (ae: seq<nat>)
    ensures |ae| == code.States()
    ensures forall t :: 0 <= t < |ae| ==> ae[t] <= MAX_AE
  {
    seq(code.States(), i requires 0 <= i < code.States() => if startState < 0 || i == startState then 0 else MAX_AE)
  }

  /** The recorded tables belong to the steps read so far. */
  ghost predicate Tables(code: Code, tails: seq<bool>, received: seq<int>, aes: seq<seq<nat>>, rows: seq<seq<nat>>)
    requires code.Valid()
  {
    && |received| == UsedBy(code, |tails|)
    && Run(code, StepsOf(code, tails, received), aes, rows)
  }

  lemma TablesLengths(code: Code, tails: seq<bool>, received: seq<int>, aes: seq<seq<nat>>, rows: seq<seq<nat>>)
    requires code.Valid() && Tables(code, tails, received, aes, rows)
    ensures |aes| == |tails| + 1 && |rows| == |tails|
    ensures |aes[0]| == |aes[|tails|]| == code.States()
    ensures |Flat(rows)| == |tails| * code.States()
    ensures forall t :: 0 <= t < code.States() ==> aes[|tails|][t] <= MAX_AE
  {
    hide Survivors, StepsOf, Code.Valid;
    var steps := StepsOf(code, tails, received);
    RunLengths(code, steps, aes, rows);
    forall r | 0 <= r < |rows| ensures |rows[r]| == code.States() {
      SurvivorsLengths(code, steps[r], aes[r], aes[r + 1], rows[r]);
    }
    FlatLength(rows, code.States());
  }

  lemma TablesSnoc(code: Code, tails: seq<bool>, received: seq<int>, aes: seq<seq<nat>>, rows: seq<seq<nat>>,
                   more: seq<int>, tail: bool, next: seq<nat>, origin: seq<nat>)
    requires code.Valid() && Tables(code, tails, received, aes, rows) && |aes| > |tails|
    requires |more| == UsedBy(code, |tails| + 1) - UsedBy(code, |tails|)
    requires Survivors(code, StepAt(code, |tails|, more, tail), aes[|tails|], next, origin)
    ensures Tables(code, tails + [tail], received + more, aes + [next], rows + [origin])
  {
    hide Survivors, StepsOf, Code.Valid, Run, UsedBy, StepAt;
    StepsSnoc(code, tails, received, more, tail);
    RunSnoc(code, StepsOf(code, tails, received), aes, rows, StepAt(code, |tails|, more, tail), next, origin);
  }

  lemma NoTables(code: Code, ae: seq<nat>)
    requires code.Valid() && |ae| == code.States()
    requires forall t :: 0 <= t < |ae| ==> ae[t] <= MAX_AE
    ensures Tables(code, [], [], [ae], [])
    ensures PosAfter(code, 0) == UsedBy(code, 0) == 0 && Flat([]) == []
  {}

  lemma RoomForRow(m: nat, total: nat, ns: nat)
    requires m < total
    ensures m * ns + ns <= total * ns
    decreases total - m
  {
    MulSucc(m, ns);
    if m + 1 < total { RoomForRow(m + 1, total, ns); }
  }

  class Decoder {
    const code: Code
    const nStates: nat
    const len: nat                     // most data steps; the history also has room for K - 1 more
    const ae: array<nat>
    const aeNext: array<nat>
    const stateHistory: array<nat>     // one row of nStates entries for each step
    var oIdx: nat
    var pIdx: nat

    ghost var tails: seq<bool>         // the steps since the last reset: which are termination steps
    ghost var received: seq<int>       // the soft bits they consumed
    ghost var aes: seq<seq<nat>>       // the accumulated errors before and after each of them
    ghost var rows: seq<seq<nat>>      // the origins recorded for each of them

    ghost predicate Shape() {
      && code.Valid() && nStates == code.States()
      && ae.Length == aeNext.Length == nStates
      && stateHistory.Length == (len + code.k - 1) * nStates
      && ae != aeNext && ae != stateHistory && aeNext != stateHistory
    }

    ghost predicate Valid()
      reads this, ae, aeNext, stateHistory
    {
      && Shape()
      && oIdx == |tails| && pIdx == PosAfter(code, oIdx)
      && Tables(code, tails, received, aes, rows)
      && |aes| == oIdx + 1 && aes[oIdx] == ae[..]
      && |Flat(rows)| == oIdx * nStates && Flat(rows) <= stateHistory[..]
    }

    constructor (code: Code, len: int, startState: int)
      requires code.Valid()
      ensures this.code == code && this.len == (if len <= 0 then code.len else len)
      ensures Valid() && tails == [] && received == [] && aes == [StartErrors(code, startState)]
      ensures fresh(ae) && fresh(aeNext) && fresh(stateHistory)
    {
      var ns, l := code.States(), if len <= 0 then code.len else len;
      this.code, nStates, this.len := code, ns, l;
      ae, aeNext := new nat[ns], new nat[ns];
      stateHistory := new nat[(l + code.k - 1) * ns];
      oIdx, pIdx := 0, 0;
      new;
      Reset(startState);
    }

    /** Forgets all steps; all states are possible, or only startState when that is not negative. */
    method Reset(startState: int)
      requires Shape()
      modifies this, ae
      ensures Valid() && tails == [] && received == [] && aes == [StartErrors(code, startState)]
    {
      hide Tables, PosAfter, UsedBy, StartErrors, Code.Valid;
      oIdx, pIdx := 0, 0;
      FillStart(startState);
      tails, received, aes, rows := [], [], [ae[..]], [];
      NoTables(code, ae[..]);
    }

    method FillStart(startState: int)
      requires Shape()
      modifies ae
      ensures ae[..] == StartErrors(code, startState)
    {
      if startState < 0 {
        for i := 0 to nStates
          invariant forall j :: 0 <= j < i ==> ae[j] == 0
        {
          ae[i] := 0;
        }
      } else {
        for i := 0 to nStates
          invariant forall j :: 0 <= j < i ==> ae[j] == if j == startState then 0 else MAX_AE
        {
          ae[i] := if i == startState then 0 else MAX_AE;
        }
      }
    }

    // ------------------------------------------------------------ reading a step

    /** Rebuilds the n soft bits of the next step, with 0 where the encoder punctured. */
    method ReadSym(input: seq<int>, at: nat) returns (sym: seq<int>, used: nat)
      requires Shape() && pIdx == PosAfter(code, oIdx)
      requires at + UsedBy(code, oIdx + 1) - UsedBy(code, oIdx) <= |input|
      modifies `pIdx
      ensures pIdx == PosAfter(code, oIdx + 1) && used == UsedBy(code, oIdx + 1) - UsedBy(code, oIdx)
      ensures sym == StepAt(code, oIdx, input[at..at + used], false).sym
    {
      hide UsedBy, PosAfter, Code.Valid, Received, ListPos;
      StepUse(code, oIdx);
      ghost var p, u := pIdx, UsedBy(code, oIdx + 1) - UsedBy(code, oIdx);
      var list, r := code.Punctures(), oIdx * code.n;
      if code.puncture.Some? {
        sym, used, pIdx := ReadPunctured(list, pIdx, r, code.n, input, at);
      } else {
        used := code.n;
        sym := input[at..at + used];
        AllReceived(r, sym);
      }
      ReceivedPrefix(list, p, r, code.n, input[at..at + u], input[at + u..]);
      assert input[at..] == input[at..at + u] + input[at + u..];
    }

    // ------------------------------------------------------------ computing a layer

    ghost function LayerAt(off: nat): (l: Layer)
      requires off + nStates <= stateHistory.Length
      reads aeNext, stateHistory
    {
      Layer(aeNext[..], stateHistory[off..off + nStates])
    }

    /** Is branch x of state s the new survivor? */
    method Relax(sym: seq<int>, s: nat, x: Input, off: nat)
      requires Shape() && |sym| == code.n && s < nStates && off + nStates <= stateHistory.Length
      modifies aeNext, stateHistory
      ensures LayerAt(off) == TryBranch(code, sym, ae[..], old(LayerAt(off)), s, x)
      ensures stateHistory[..off] == old(stateHistory[..off])
    {
      hide WordErr, Symbol, Code.Out, Code.Next;
      var out, t := code.Out(s, x), code.Next(s, x);
      var nae := AddErr(ae[s], sym, out, code.n);
      if aeNext[t] > nae {
        aeNext[t] := nae;
        stateHistory[off + t] := s;
      }
    }

    /** The accumulated errors after one more step, into aeNext, and one row of the history. */
    method Compute(sym: seq<int>, tail: bool, off: nat)
      requires Shape() && |sym| == code.n && off + nStates <= stateHistory.Length
      modifies aeNext, stateHistory
      ensures Survivors(code, Step(sym, tail), ae[..], aeNext[..], stateHistory[off..off + nStates])
      ensures stateHistory[..off] == old(stateHistory[..off])
    {
      hide Tried, Survivors, TryBranch, StatesBelow, Code.Valid;
      ClearNext();
      ghost var step, prev := Step(sym, tail), ae[..];
      NothingTried(code, step, prev, LayerAt(off));
      for s := 0 to nStates
        invariant Tried(code, step, prev, LayerAt(off), StatesBelow(step, s))
        invariant stateHistory[..off] == old(stateHistory[..off])
      {
        TryStateKeeps(code, step, prev, LayerAt(off), s);
        if tail {
          Relax(sym, s, Tail, off);
        } else {
          Relax(sym, s, Data(false), off);
          Relax(sym, s, Data(true), off);
        }
      }
      AllTried(code, step, prev, LayerAt(off));
    }

    method ClearNext()
      requires Shape()
      modifies aeNext
      ensures forall s :: 0 <= s < nStates ==> aeNext[..][s] == MAX_AE
    {
      for s := 0 to nStates
        invariant forall s' :: 0 <= s' < s ==> aeNext[s'] == MAX_AE
      {
        aeNext[s] := MAX_AE;
      }
    }

    method CopyNext()
      requires Shape()
      modifies ae
      ensures ae[..] == aeNext[..]
    {
      for s := 0 to nStates
        invariant forall s' :: 0 <= s' < s ==> ae[s'] == aeNext[s']
      {
        ae[s] := aeNext[s];
      }
    }

    /** One trellis step: a data step or, with tail set, a termination step. */
    method DoStep(input: seq<int>, at: nat, tail: bool) returns (used: nat)
      requires Valid() && oIdx < len + code.k - 1
      requires at + UsedBy(code, oIdx + 1) - UsedBy(code, oIdx) <= |input|
      modifies this, ae, aeNext, stateHistory
      ensures Valid() && used == UsedBy(code, old(oIdx) + 1) - UsedBy(code, old(oIdx))
      ensures tails == old(tails) + [tail] && received == old(received) + input[at..at + used]
      ensures aes[0] == old(aes[0])
    {
      hide Tables, Survivors, PosAfter, UsedBy, Code.Valid, Flat;
      var m, off := oIdx, oIdx * nStates;
      RoomForRow(m, len + code.k - 1, nStates);
      ghost var flat := Flat(rows);
      var sym;
      sym, used := ReadSym(input, at);
      Compute(sym, tail, off);
      ghost var more, origin := input[at..at + used], stateHistory[off..off + nStates];
      TablesSnoc(code, tails, received, aes, rows, more, tail, aeNext[..], origin);
      FlatSnoc(rows, origin);
      CopyNext();
      oIdx := oIdx + 1;
      tails, received, aes, rows := tails + [tail], received + more, aes + [aeNext[..]], rows + [origin];
      TablesLengths(code, tails, received, aes, rows);
    }

    // ------------------------------------------------------------ whole messages

    /** m steps of one kind: osmo_conv_decode_scan without, osmo_conv_decode_flush with tail. */
    method DoSteps(input: seq<int>, at: nat, m: nat, tail: bool) returns (used: nat)
      requires Valid() && oIdx + m <= len + code.k - 1
      requires at + UsedBy(code, oIdx + m) - UsedBy(code, oIdx) <= |input|
      modifies this, ae, aeNext, stateHistory
      ensures Valid() && used == UsedBy(code, old(oIdx) + m) - UsedBy(code, old(oIdx))
      ensures at + used <= |input| && tails == old(tails) + Marks(m, tail)
      ensures received == old(received) + input[at..at + used]
      ensures aes[0] == old(aes[0])
    {
      hide Valid, UsedBy, Code.Valid;
      ValidLengths();
      ghost var o, tails0, received0 := oIdx, tails, received;
      used := 0;
      UseGrows(code, o, o + m);
      assert received0 == received0 + input[at..at];
      for i := 0 to m
        invariant Valid() && Shape() && oIdx == o + i && |aes| > 0 && aes[0] == old(aes[0])
        invariant used == UsedBy(code, o + i) - UsedBy(code, o) && at + used <= |input|
        invariant tails == tails0 + Marks(i, tail)
        invariant received == received0 + input[at..at + used]
      {
        UseGrows(code, o + i + 1, o + m);
        UseGrows(code, o + i, o + i + 1);
        UseGrows(code, o, o + i);
        var u := DoStep(input, at + used, tail);
        ValidLengths();
        assert input[at..at + used] + input[at + used..at + used + u] == input[at..at + used + u];
        assert Marks(i, tail) + [tail] == Marks(i + 1, tail);
        used := used + u;
      }
    }

    lemma ValidLengths()
      requires Valid()
      ensures Shape() && |aes| == oIdx + 1 && |aes[0]| == nStates && oIdx == |tails|
      ensures |received| == UsedBy(code, |tails|)
    {
      hide StepsOf, UsedBy, Code.Valid, Flat;
      TablesLengths(code, tails, received, aes, rows);
    }

    /** Starts over with the accumulated errors of the last pass, less their minimum. */
    method Rewind()
      requires Valid()
      modifies this, ae
      ensures Valid() && tails == [] && received == [] && |aes| == 1
      ensures Rebased(old(ae[..]), aes[0])
    {
      hide Tables, PosAfter, UsedBy, Flat, Code.Valid;
      ghost var before := ae[..];
      TablesLengths(code, tails, received, aes, rows);
      var minAe := LeastError();
      for i := 0 to nStates
        invariant forall j :: 0 <= j < i ==> ae[j] == before[j] - minAe
        invariant ae[i..] == before[i..]
      {
        ae[i] := ae[i] - minAe;
      }
      oIdx, pIdx := 0, 0;
      tails, received, aes, rows := [], [], [ae[..]], [];
      NoTables(code, ae[..]);
      assert RebasedBy(before, ae[..], minAe);
    }

    /** The first loop of osmo_conv_decode_rewind. */
    method LeastError() returns (minAe: nat)
      requires nStates <= ae.Length
      ensures minAe <= MAX_AE && forall j :: 0 <= j < nStates ==> minAe <= ae[j]
      ensures minAe == MAX_AE || exists j :: 0 <= j < nStates && ae[j] == minAe
    {
      minAe := MAX_AE;
      for i := 0 to nStates
        invariant minAe <= MAX_AE && forall j :: 0 <= j < i ==> minAe <= ae[j]
        invariant minAe == MAX_AE || exists j :: 0 <= j < i && ae[j] == minAe
      {
        if ae[i] < minAe {
          minAe := ae[i];
        }
      }
    }

    // ------------------------------------------------------------ traceback

    /** The first state with the least error; 0xff when no state is below MAX_AE. */
    method FindLeast() returns (minAe: nat, minState: nat)
      requires Shape()
      ensures minState == 0xff <==> Lost(ae[..])
      ensures minState != 0xff ==>
        minState < nStates && ae[minState] == minAe < MAX_AE && forall s :: 0 <= s < nStates ==> minAe <= ae[s]
    {
      StatesFit(code);
      minAe, minState := MAX_AE, 0xff;
      for s := 0 to nStates
        invariant forall s' :: 0 <= s' < s ==> minAe <= ae[s']
        invariant minAe == MAX_AE ==> minState == 0xff
        invariant minAe != MAX_AE ==>
          minState < s && minAe < MAX_AE && ae[minState] == minAe && forall s' :: 0 <= s' < minState ==> minAe < ae[s']
        invariant minAe <= MAX_AE
      {
        if ae[s] < minAe {
          minAe := ae[s];
          minState := s;
        }
      }
    }

    /** One step backwards: the origin recorded in step r for state t. */
    method ReadHistory(r: nat, t: nat) returns (s: nat)
      requires Valid() && r < oIdx && t < nStates
      ensures r < |rows| && |rows[r]| == nStates && s == rows[r][t]
    {
      hide Run, StepsOf, UsedBy, PosAfter, Code.Valid, Code.States, Tables, Flat;
      RowLengths();
      FlatAt(rows, nStates, r, t);
      ghost var flat := Flat(rows);
      var i := r * nStates + t;
      assert flat[i] == stateHistory[..][i];
      s := stateHistory[i];
    }

    lemma RowLengths()
      requires Valid()
      ensures |rows| == oIdx && forall r :: 0 <= r < |rows| ==> |rows[r]| == nStates
    {
      hide StepsOf, UsedBy, Code.Valid, Flat, Survivors;
      var steps := StepsOf(code, tails, received);
      TablesLengths(code, tails, received, aes, rows);
      forall r | 0 <= r < |rows| ensures |rows[r]| == nStates {
        SurvivorsLengths(code, steps[r], aes[r], aes[r + 1], rows[r]);
      }
    }

    /** The survivor path into state end. */
    ghost function PathInto(end: nat): (path: seq<Input>)
      requires Valid() && code.Separated() && end < nStates && ae[..][end] < MAX_AE
      reads this, ae, aeNext, stateHistory
      ensures |path| == oIdx
    {
      Survivor(code, StepsOf(code, tails, received), aes, rows, end)
    }

    /** Walks one step back along the survivor path into end. */
    method StepBack(ghost end: nat, r: nat, t: nat, ghost suffix: seq<Input>) returns (s: nat)
      requires Valid() && code.Separated() && r < oIdx
      requires end < nStates && ae[..][end] < MAX_AE
      requires OnSurvivor(code, StepsOf(code, tails, received), aes, rows, end, r + 1, t, suffix)
      ensures s < nStates && t < nStates
      ensures OnSurvivor(code, StepsOf(code, tails, received), aes, rows, end, r, s,
                         [ReadBranch(code, StepsOf(code, tails, received)[r], s, t)] + suffix)
    {
      hide StepsOf, UsedBy, PosAfter, Code.Valid, Code.Separated, Flat, Run, OnSurvivor, ReadBranch;
      OnSurvivorStep(code, StepsOf(code, tails, received), aes, rows, end, r + 1, t, suffix);
      s := ReadHistory(r, t);
    }

    /** Skips the termination steps of the survivor path into end, which give no output. */
    method SkipTail(n: nat, end: nat) returns (cur: nat)
      requires Valid() && code.Separated() && end < nStates && ae[..][end] < MAX_AE
      requires n <= oIdx && tails == Marks(n, false) + Marks(oIdx - n, true)
      ensures OnSurvivor(code, StepsOf(code, tails, received), aes, rows, end, n, cur, TailPath(oIdx - n))
    {
      hide StepsOf, UsedBy, PosAfter, Code.Valid, Code.Separated, Flat, Run, OnSurvivor, TailPath, Marks, ReadBranch;
      ghost var steps := StepsOf(code, tails, received);
      StepTails(n);
      OnSurvivorStart(code, steps, aes, rows, end);
      PathPieces();
      cur := end;
      for i := oIdx downto n
        invariant OnSurvivor(code, steps, aes, rows, end, i, cur, TailPath(oIdx - i))
      {
        TailPathCons(oIdx - i - 1);
        ghost var next := cur;
        cur := StepBack(end, i, cur, TailPath(oIdx - i - 1));
        ReadBit(code, steps[i], cur, next);
      }
    }

    /** Reads the survivor path into end backwards: the last oIdx - n steps are skipped, n give output bits. */
    method Traceback(output: array<Bit>, n: nat, end: nat)
      requires Valid() && code.Separated() && end < nStates && ae[..][end] < MAX_AE
      requires n <= oIdx && n <= output.Length && tails == Marks(n, false) + Marks(oIdx - n, true)
      modifies output
      ensures PathInto(end) == DataPath(output[..n]) + TailPath(oIdx - n)
      ensures output[n..] == old(output[n..])
    {
      hide StepsOf, UsedBy, PosAfter, Code.Valid, Code.Separated, Flat, Run, OnSurvivor, TailPath, DataPath, Marks,
        ReadBranch;
      ghost var steps, rest, bits := StepsOf(code, tails, received), TailPath(oIdx - n), [];
      StepTails(n);
      PathPieces();
      var cur := SkipTail(n, end);
      for i := n downto 0
        invariant OnSurvivor(code, steps, aes, rows, end, i, cur, DataPath(bits) + rest)
        invariant output[i..n] == bits
        invariant output[n..] == old(output[n..])
      {
        var next := cur;
        cur := StepBack(end, i, next, DataPath(bits) + rest);
        ReadBit(code, steps[i], cur, next);
        output[i] := code.nextState[cur][0] != next;
        DataPathCons(output[i], bits, rest);
        bits := [output[i]] + bits;
      }
      OnSurvivorEnd(code, steps, aes, rows, end, cur, DataPath(bits) + rest);
      assert output[..n] == bits;
    }

    lemma StepTails(n: nat)
      requires Valid() && n <= oIdx && tails == Marks(n, false) + Marks(oIdx - n, true)
      ensures forall i :: 0 <= i < oIdx ==> (StepsOf(code, tails, received)[i].tail <==> i >= n)
    {
      hide StepsOf, UsedBy, PosAfter, Code.Valid, Run;
      forall i | 0 <= i < oIdx ensures StepsOf(code, tails, received)[i].tail <==> i >= n {
        StepTail(code, tails, received, i);
      }
    }

    /** The decoded bits; -1 when the search for the best final state finds none. */
    method GetOutput(output: array<Bit>, hasFlush: bool, endState: int) returns (rv: int, ghost end: nat)
      requires Valid() && code.Separated()
      requires hasFlush ==> oIdx >= code.k - 1
      requires var n := if hasFlush then oIdx - (code.k - 1) else oIdx;
        n <= output.Length && tails == Marks(n, false) + Marks(oIdx - n, true)
      requires endState >= 0 ==> endState < nStates && ae[..][endState] < MAX_AE
      modifies output
      ensures rv < 0 <==> endState < 0 && Lost(ae[..])
      ensures rv < 0 ==> rv == -1 && output[..] == old(output[..])
      ensures rv >= 0 ==>
        && end < nStates && ae[..][end] == rv < MAX_AE
        && (if endState >= 0 then end == endState else forall s :: 0 <= s < nStates ==> rv <= ae[..][s])
        && var n := if hasFlush then oIdx - (code.k - 1) else oIdx;
           PathInto(end) == DataPath(output[..n]) + TailPath(oIdx - n) && output[n..] == old(output[n..])
    {
      hide StepsOf, UsedBy, PosAfter, Code.Valid, Code.Separated, Flat, Run, Tables, DataPath, TailPath, Marks,
        PathInto;
      var n := if hasFlush then oIdx - (code.k - 1) else oIdx;
      var minState := 0;
      if endState < 0 {
        StatesFit(code);
        rv, minState := FindLeast();
        if minState == 0xff {
          return -1, 0;
        }
      } else {
        rv, minState := ae[endState], endState;
      }
      Traceback(output, n, minState);
      end := minState;
    }
  }

  /** All states are saturated; or, with 256 states, the only best one is the last, whose number stands for none. */
  ghost predicate Lost(ae: seq<nat>) {
    || (forall s :: 0 <= s < |ae| ==> ae[s] >= MAX_AE)
    || (|ae| == 256 && ae[255] < MAX_AE && forall s :: 0 <= s < 255 ==> ae[255] < ae[s])
  }

  lemma PathPieces()
    ensures TailPath(0) == [] && DataPath([]) == [] && forall p: seq<Input> :: [] + p == p
  {}

  lemma ReadBit(code: Code, step: Step, s: nat, t: nat)
    requires code.Valid() && s < code.States()
    ensures |code.nextState| == code.States() && |code.nextState[s]| == 2
    ensures ReadBranch(code, step, s, t) == if step.tail then Tail else Data(code.nextState[s][0] != t)
  {}

  lemma TailPathCons(m: nat)
    ensures TailPath(m + 1) == [Tail] + TailPath(m)
  {}

  lemma DataPathCons(b: Bit, bits: seq<Bit>, rest: seq<Input>)
    ensures DataPath([b] + bits) + rest == [Data(b)] + (DataPath(bits) + rest)
  {}

  ghost predicate RebasedBy(before: seq<nat>, after: seq<nat>, m: nat) {
    && |after| == |before|
    && (forall s :: 0 <= s < |before| ==> after[s] == before[s] - m)
    && (m == MAX_AE || m in before)
  }

  /** after is before less the minimum of before (or less MAX_AE when all are saturated). */
  ghost predicate Rebased(before: seq<nat>, after: seq<nat>) {
    exists m :: RebasedBy(before, after, m)
  }

  lemma {:induction false} AllReceived(r: nat, input: seq<int>)
    ensures ListPos([-1], 0, r, |input|) == 0
    ensures Received([-1], 0, r, |input|, input) == input
  {
    if input != [] {
      var m := |input| - 1;
      AllReceived(r, input[..m]);
      ReceivedPrefix([-1], 0, r, m, input[..m], input[m..]);
      assert input == input[..m] + input[m..];
    }
  }

  method ReadPunctured(list: seq<int>, p: nat, r: nat, n: nat, input: seq<int>, at: nat)
    returns (sym: seq<int>, used: nat, p': nat)
    requires Terminated(list) && p < |list| && at + n - (ListPos(list, p, r, n) - p) <= |input|
    ensures p' == ListPos(list, p, r, n) && used == n - (p' - p)
    ensures sym == Received(list, p, r, n, input[at..])
  {
    hide ListPos, Received;
    sym, used, p' := [], 0, p;
    NothingReceived(list, p, r, input[at..]);
    for j := 0 to n
      invariant p' == ListPos(list, p, r, j) && used == j - (p' - p)
      invariant at + used <= |input| && j - (p' - p) <= |input[at..]|
      invariant sym == Received(list, p, r, j, input[at..])
    {
      ReceivedStep(list, p, r, j, n, input[at..]);
      if list[p'] == r + j {
        sym := sym + [0];
        p' := p' + 1;
      } else {
        sym := sym + [input[at + used]];
        used := used + 1;
      }
    }
  }

  lemma NothingReceived(list: seq<int>, p: nat, r: nat, input: seq<int>)
    requires Terminated(list) && p < |list|
    ensures ListPos(list, p, r, 0) == p && Received(list, p, r, 0, input) == []
  {}

  lemma ReceivedStep(list: seq<int>, p: nat, r: nat, j: nat, n: nat, input: seq<int>)
    requires Terminated(list) && p < |list| && j < n
    requires n - (ListPos(list, p, r, n) - p) <= |input|
    ensures var q := ListPos(list, p, r, j);
      && j - (q - p) <= |input|
      && (list[q] == r + j ==>
            && ListPos(list, p, r, j + 1) == q + 1
            && Received(list, p, r, j + 1, input) == Received(list, p, r, j, input) + [0])
      && (list[q] != r + j ==>
            && j - (q - p) < |input|
            && ListPos(list, p, r, j + 1) == q
            && Received(list, p, r, j + 1, input) == Received(list, p, r, j, input) + [input[j - (q - p)]])
  {
    hide Terminated;
    ListPosConcat(list, p, r, j + 1, n - j - 1);
    ListPosConcat(list, p, r, j, n - j);
  }
}
