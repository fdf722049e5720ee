/**
  Convolutional codes: the description of a code, the trellis it spans, the code word of a
  path through the trellis, and the puncturing rule that encoder and decoder share.
 */
module ConvCode {
  import opened Binary
  import opened Options

  /** An unpacked bit; in C an 8-bit variable that holds 0 or 1. */
  type Bit = bool

  function Index(b: Bit): nat {
    if b then 1 else 0
  }

  datatype Termination = Flush | Truncation | TailBiting

  /** The optional tables that drive the trellis while the encoder is being flushed. */
  datatype TermTables = TermTables(output: seq<bv8>, state: seq<nat>)

  /** What a trellis step consumes: a data bit, or one of the K - 1 termination steps. */
  datatype Input = Data(bit: Bit) | Tail

  datatype Code = Code(
    n: nat,                         // output bits per input bit
    k: nat,                         // constraint length
    len: nat,                       // number of data bits
    term: Termination,
    nextOutput: seq<seq<bv8>>,
    nextState: seq<seq<nat>>,
    termTables: Option<TermTables>,
    puncture: Option<seq<int>>)     // increasing bit positions, ended by a negative entry
  {
    function States(): nat {
      Pow2(if k == 0 then 0 else k - 1)
    }

    /** States are kept in 8-bit variables and the output mask is an 8-bit one. */
    predicate Valid() {
      && 1 <= n <= 8
      && 1 <= k <= 9
      && |nextOutput| == |nextState| == States()
      && (forall s :: 0 <= s < States() ==> |nextOutput[s]| == 2)
      && (forall s :: 0 <= s < States() ==>
            |nextState[s]| == 2 && nextState[s][0] < States() && nextState[s][1] < States())
      && (termTables.Some? ==>
            && |termTables.value.output| == |termTables.value.state| == States()
            && forall s :: 0 <= s < States() ==> termTables.value.state[s] < States())
      && (puncture.Some? ==> Terminated(puncture.value))
    }

    /** The two branches that leave a state lead to different states. */
    predicate Separated()
      requires Valid()
    {
      forall s :: 0 <= s < States() ==> nextState[s][0] != nextState[s][1]
    }

    function Next(s: nat, x: Input): (t: nat)
      requires Valid() && s < States()
      ensures t < States()
    {
      match x
      case Data(b) => nextState[s][Index(b)]
      case Tail => if termTables.Some? then termTables.value.state[s] else nextState[s][0]
    }

    function Out(s: nat, x: Input): bv8
      requires Valid() && s < States()
    {
      match x
      case Data(b) => nextOutput[s][Index(b)]
      case Tail => if termTables.Some? then termTables.value.output[s] else nextOutput[s][0]
    }

    /** The puncture list; without puncturing, a list that punctures nothing. */
    function Punctures(): (list: seq<int>)
      requires Valid()
      ensures Terminated(list)
    {
      if puncture.Some? then puncture.value else [-1]
    }
  }

  // ---------------------------------------------------------------- output symbols

  /** The n output bits of one step, most significant first. */
  function Symbol(out: bv8, n: nat): (sym: seq<Bit>)
    requires n <= 8
    ensures |sym| == n
  {
    seq(n, j requires 0 <= j < n => BitOf(out, n - 1 - j))
  }

  // ---------------------------------------------------------------- paths

  /** The state reached from s by a path. */
  function EndState(code: Code, s: nat, path: seq<Input>): (t: nat)
    requires code.Valid() && s < code.States()
    ensures t < code.States()
  {
    if path == [] then s
    else code.Next(EndState(code, s, path[..|path| - 1]), path[|path| - 1])
  }

  /** The unpunctured code word of a path. */
  function Codeword(code: Code, s: nat, path: seq<Input>): (c: seq<Bit>)
    requires code.Valid() && s < code.States()
  {
    if path == [] then []
    else
      var m := |path| - 1;
      Codeword(code, s, path[..m]) + Symbol(code.Out(EndState(code, s, path[..m]), path[m]), code.n)
  }

  lemma {:induction false} PathConcat(code: Code, s: nat, a: seq<Input>, b: seq<Input>)
    requires code.Valid() && s < code.States()
    ensures EndState(code, s, a + b) == EndState(code, EndState(code, s, a), b)
    ensures Codeword(code, s, a + b) == Codeword(code, s, a) + Codeword(code, EndState(code, s, a), b)
    decreases |b|
  {
    if b == [] {
      assert a + b == a;
    } else {
      var m := |b| - 1;
      assert (a + b)[..|a + b| - 1] == a + b[..m];
      PathConcat(code, s, a, b[..m]);
    }
  }

  lemma {:induction false} CodewordLength(code: Code, s: nat, path: seq<Input>)
    requires code.Valid() && s < code.States()
    ensures |Codeword(code, s, path)| == |path| * code.n
  {
    if path != [] {
      CodewordLength(code, s, path[..|path| - 1]);
      MulSucc(|path| - 1, code.n);
    }
  }

  lemma MulSucc(a: nat, b: nat)
    ensures (a + 1) * b == a * b + b
  {}

  /** The bits of a message as trellis inputs. */
  function DataPath(bits: seq<Bit>): (path: seq<Input>)
    ensures |path| == |bits|
  {
    seq(|bits|, i requires 0 <= i < |bits| => Data(bits[i]))
  }

  function TailPath(m: nat): (path: seq<Input>)
    ensures |path| == m
  {
    seq(m, i => Tail)
  }

  /** The path of a whole message: the data bits, then the termination when the code is flushed. */
  function MessagePath(code: Code, bits: seq<Bit>): (path: seq<Input>)
    requires code.Valid()
  {
    if code.term == Flush then DataPath(bits) + TailPath(code.k - 1) else DataPath(bits)
  }

  /** Where the encoder starts: at 0, or at the state the last K - 1 data bits spell out. */
  function StartState(code: Code, bits: seq<Bit>): (s: nat)
    requires code.Valid()
    requires code.term == TailBiting ==> |bits| >= code.k - 1
    ensures s < code.States()
  {
    if code.term == TailBiting then LoadedState(bits[|bits| - (code.k - 1)..]) else 0
  }

  function LoadedState(bits: seq<Bit>): (s: nat)
    ensures s < Pow2(|bits|)
  {
    if bits == [] then 0 else 2 * LoadedState(bits[..|bits| - 1]) + Index(bits[|bits| - 1])
  }

  // ---------------------------------------------------------------- puncturing

  /** A puncture list as C holds it: non-negative positions, then a negative end mark. */
  predicate Terminated(list: seq<int>) {
    && |list| > 0
    && list[|list| - 1] < 0
    && forall i :: 0 <= i < |list| - 1 ==> list[i] >= 0
  }

  /**
    The position reached in the puncture list after m more coded bits, when the list
    position is p and the next coded bit has number r.
   */
  function ListPos(list: seq<int>, p: nat, r: nat, m: nat): (q: nat)
    requires Terminated(list) && p < |list|
    ensures p <= q < |list| && q <= p + m
    decreases m
  {
    if m == 0 then p
    else
      var q := ListPos(list, p, r, m - 1);
      if list[q] == r + m - 1 then q + 1 else q
  }

  /** Is the i-th coded bit after bit number r removed? */
  predicate Dropped(list: seq<int>, p: nat, r: nat, i: nat)
    requires Terminated(list) && p < |list|
  {
    list[ListPos(list, p, r, i)] == r + i
  }

  /** What is left of coded bits (or of anything aligned with them) after puncturing. */
  function Keep(list: seq<int>, p: nat, r: nat, c: seq<Bit>): (kept: seq<Bit>)
    requires Terminated(list) && p < |list|
    ensures |kept| == |c| - (ListPos(list, p, r, |c|) - p)
  {
    if c == [] then []
    else
      var m := |c| - 1;
      if Dropped(list, p, r, m) then Keep(list, p, r, c[..m]) else Keep(list, p, r, c[..m]) + [c[m]]
  }

  lemma {:induction false} ListPosConcat(list: seq<int>, p: nat, r: nat, a: nat, b: nat)
    requires Terminated(list) && p < |list|
    ensures ListPos(list, p, r, a + b) == ListPos(list, ListPos(list, p, r, a), r + a, b)
    decreases b
  {
    if b > 0 { ListPosConcat(list, p, r, a, b - 1); }
  }

  lemma ConcatAssoc(a: seq<Bit>, b: seq<Bit>, c: seq<Bit>)
    ensures a + b + c == a + (b + c)
  {}

  lemma KeepSnoc(list: seq<int>, p: nat, r: nat, c: seq<Bit>, x: Bit)
    requires Terminated(list) && p < |list|
    ensures Keep(list, p, r, c + [x])
         == Keep(list, p, r, c) + if Dropped(list, p, r, |c|) then [] else [x]
    ensures ListPos(list, p, r, |c| + 1)
         == ListPos(list, p, r, |c|) + if Dropped(list, p, r, |c|) then 1 else 0
  {
    assert (c + [x])[..|c|] == c;
  }

  lemma {:induction false} KeepConcat(list: seq<int>, p: nat, r: nat, a: seq<Bit>, b: seq<Bit>)
    requires Terminated(list) && p < |list|
    ensures Keep(list, p, r, a + b)
         == Keep(list, p, r, a) + Keep(list, ListPos(list, p, r, |a|), r + |a|, b)
    decreases |b|
  {
    hide Keep, ListPos;
    if b == [] {
      assert a + b == a;
    } else {
      var m, q := |b| - 1, ListPos(list, p, r, |a|);
      var last := if Dropped(list, q, r + |a|, m) then [] else [b[m]];
      assert Keep(list, p, r, a + b) == Keep(list, p, r, a + b[..m]) + last by {
        assert a + b == (a + b[..m]) + [b[m]];
        KeepSnoc(list, p, r, a + b[..m], b[m]);
        ListPosConcat(list, p, r, |a|, m);
      }
      assert Keep(list, q, r + |a|, b) == Keep(list, q, r + |a|, b[..m]) + last by {
        assert b == b[..m] + [b[m]];
        KeepSnoc(list, q, r + |a|, b[..m], b[m]);
      }
      KeepConcat(list, p, r, a, b[..m]);
      ConcatAssoc(Keep(list, p, r, a), Keep(list, q, r + |a|, b[..m]), last);
    }
  }

  lemma {:induction false} KeepNothingPunctured(r: nat, c: seq<Bit>)
    ensures ListPos([-1], 0, r, |c|) == 0
    ensures Keep([-1], 0, r, c) == c
  {
    if c != [] { KeepNothingPunctured(r, c[..|c| - 1]); }
  }

  /** The entries of a list are increasing bit positions below total. */
  predicate IncreasingBelow(list: seq<int>, total: nat)
    requires Terminated(list)
  {
    && (forall i :: 0 <= i < |list| - 1 ==> list[i] < total)
    && (forall i, j :: 0 <= i < j < |list| - 1 ==> list[i] < list[j])
  }

  lemma {:induction false} ListPosPassed(list: seq<int>, m: nat)
    requires Terminated(list)
    ensures var q := ListPos(list, 0, 0, m);
      && (forall i :: 0 <= i < q ==> list[i] < m)
      && (forall i, j :: 0 <= i < j < q ==> list[i] < list[j])
  {
    if m > 0 { ListPosPassed(list, m - 1); }
  }

  lemma {:induction false} ListPosCounts(list: seq<int>, total: nat, m: nat)
    requires Terminated(list) && IncreasingBelow(list, total)
    ensures var q := ListPos(list, 0, 0, m); q == |list| - 1 || list[q] >= m
    decreases m
  {
    if m > 0 {
      ListPosCounts(list, total, m - 1);
      ListPosPassed(list, m - 1);
    }
  }

  /**
    Puncturing removes as many bits as the list has entries exactly when the entries are
    strictly increasing bit positions of the word.
   */
  lemma {:induction false} AllPuncturesHit(list: seq<int>, c: seq<Bit>)
    requires Terminated(list)
    ensures |Keep(list, 0, 0, c)| == |c| - (|list| - 1) <==> IncreasingBelow(list, |c|)
  {
    ListPosPassed(list, |c|);
    if IncreasingBelow(list, |c|) {
      ListPosCounts(list, |c|, |c|);
    }
  }
}
