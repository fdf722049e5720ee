/**
  The convolutional encoder: an object that carries the trellis state, the number of bits
  consumed and the position in the puncture list from one call to the next.
 */
module ConvEncode {
  import opened Binary
  import opened Options
  import opened ConvCode

  /** The coded bits sent for a path from state s, when the next coded bit is number r. */
  function Emit(code: Code, r: nat, p: nat, s: nat, path: seq<Input>): (c: seq<Bit>)
    requires code.Valid() && s < code.States() && p < |code.Punctures()|
  {
    Keep(code.Punctures(), p, r, Codeword(code, s, path))
  }

  /** The list position after that path. */
  function EmitPos(code: Code, r: nat, p: nat, s: nat, path: seq<Input>): (q: nat)
    requires code.Valid() && s < code.States() && p < |code.Punctures()|
    ensures q < |code.Punctures()|
  {
    ListPos(code.Punctures(), p, r, |Codeword(code, s, path)|)
  }

  /** A buffer after sent was written to it from index at on. */
  function Written(buf: seq<Bit>, at: nat, sent: seq<Bit>): (w: seq<Bit>)
    requires at + |sent| <= |buf|
    ensures |w| == |buf|
  {
    buf[..at] + sent + buf[at + |sent|..]
  }

  lemma WrittenTwice(buf: seq<Bit>, at: nat, a: seq<Bit>, b: seq<Bit>)
    requires at + |a| + |b| <= |buf|
    ensures Written(Written(buf, at, a), at + |a|, b) == Written(buf, at, a + b)
  {}

  /** The code word transmitted for a message. */
  function Encoded(code: Code, bits: seq<Bit>): (c: seq<Bit>)
    requires code.Valid()
    requires code.term == TailBiting ==> |bits| >= code.k - 1
  {
    Keep(code.Punctures(), 0, 0, Codeword(code, StartState(code, bits), MessagePath(code, bits)))
  }

  /** The length osmo_conv_get_output_length announces for an input of inLen bits. */
  function OutputLength(code: Code, inLen: nat): (l: int)
    requires code.Valid()
  {
    inLen * code.n + (if code.term == Flush then code.n * (code.k - 1) else 0)
      - (|code.Punctures()| - 1)
  }

  method GetOutputLength(code: Code, len: int) returns (outLen: int)
    requires code.Valid()
    ensures outLen == OutputLength(code, if len <= 0 then code.len else len)
  {
    var inLen := if len <= 0 then code.len else len;
    outLen := inLen * code.n;
    if code.term == Flush {
      outLen := outLen + code.n * (code.k - 1);
    }
    if code.puncture.Some? {
      var list := code.puncture.value;
      var pbits := 0;
      while list[pbits] >= 0
        invariant 0 <= pbits < |list|
        decreases |list| - pbits
      {
        pbits := pbits + 1;
      }
      outLen := outLen - pbits;
    }
  }

  /**
    The encoder sends exactly the announced number of bits if and only if the puncture list
    consists of strictly increasing positions of the unpunctured word.
   */
  lemma EncodedLength(code: Code, bits: seq<Bit>)
    requires code.Valid() && |bits| == code.len
    requires code.term == TailBiting ==> |bits| >= code.k - 1
    ensures |Encoded(code, bits)| == OutputLength(code, code.len)
       <==> IncreasingBelow(code.Punctures(), code.n * |MessagePath(code, bits)|)
  {
    hide Codeword, Keep, ListPos, MessagePath, StartState, Code.Valid, IncreasingBelow;
    var word := Codeword(code, StartState(code, bits), MessagePath(code, bits));
    CodewordLength(code, StartState(code, bits), MessagePath(code, bits));
    MessageLength(code, bits);
    AllPuncturesHit(code.Punctures(), word);
  }

  lemma MessageLength(code: Code, bits: seq<Bit>)
    requires code.Valid() && |bits| == code.len
    ensures code.n * |MessagePath(code, bits)|
         == code.len * code.n + if code.term == Flush then code.n * (code.k - 1) else 0
  {}

  /** Encoding a path in two pieces, with the encoder state carried over, changes nothing. */
  lemma ChunkedEncoding(code: Code, r: nat, p: nat, s: nat, a: seq<Input>, b: seq<Input>)
    requires code.Valid() && s < code.States() && p < |code.Punctures()|
    ensures var r', q, t := r + |Codeword(code, s, a)|, EmitPos(code, r, p, s, a), EndState(code, s, a);
      && Emit(code, r, p, s, a + b) == Emit(code, r, p, s, a) + Emit(code, r', q, t, b)
      && EmitPos(code, r, p, s, a + b) == EmitPos(code, r', q, t, b)
      && EndState(code, s, a + b) == EndState(code, t, b)
  {
    hide Codeword, EndState, Keep, ListPos;
    PathConcat(code, s, a, b);
    var wordA, wordB := Codeword(code, s, a), Codeword(code, EndState(code, s, a), b);
    KeepConcat(code.Punctures(), p, r, wordA, wordB);
    ListPosConcat(code.Punctures(), p, r, |wordA|, |wordB|);
  }

  lemma OneStep(code: Code, s: nat, x: Input)
    requires code.Valid() && s < code.States()
    ensures Codeword(code, s, [x]) == Symbol(code.Out(s, x), code.n)
    ensures EndState(code, s, [x]) == code.Next(s, x)
  {
    assert [x][..0] == [];
  }

  /** One more step of an encoder that has already encoded a path from its start state. */
  lemma EmitStep(code: Code, s: nat, path: seq<Input>, x: Input)
    requires code.Valid() && s < code.States()
    ensures var q, t := EmitPos(code, 0, 0, s, path), EndState(code, s, path);
      var sym := Symbol(code.Out(t, x), code.n);
      && Emit(code, 0, 0, s, path + [x])
         == Emit(code, 0, 0, s, path) + Keep(code.Punctures(), q, |path| * code.n, sym)
      && EmitPos(code, 0, 0, s, path + [x]) == ListPos(code.Punctures(), q, |path| * code.n, code.n)
      && EndState(code, s, path + [x]) == code.Next(t, x)
  {
    hide Codeword, EndState, Keep, ListPos, Symbol;
    ChunkedEncoding(code, 0, 0, s, path, [x]);
    OneStep(code, EndState(code, s, path), x);
    CodewordLength(code, s, path);
  }

  /** A shorter path, less output: used for the room left in the output buffer. */
  lemma EmitPrefix(code: Code, s: nat, a: seq<Input>, b: seq<Input>)
    requires code.Valid() && s < code.States()
    ensures |Emit(code, 0, 0, s, a)| <= |Emit(code, 0, 0, s, a + b)|
  {
    hide Codeword, EndState, Keep, ListPos;
    ChunkedEncoding(code, 0, 0, s, a, b);
  }

  /** The room one more step needs, out of the room the whole path needs. */
  lemma PathStep(code: Code, s: nat, path: seq<Input>, xs: seq<Input>, i: nat)
    requires code.Valid() && s < code.States() && i < |xs|
    ensures path + xs[..i + 1] == path + xs[..i] + [xs[i]]
    ensures |Emit(code, 0, 0, s, path + xs[..i] + [xs[i]])| <= |Emit(code, 0, 0, s, path + xs)|
  {
    hide Emit;
    EmitPrefix(code, s, path + xs[..i] + [xs[i]], xs[i + 1..]);
    assert path + xs == (path + xs[..i] + [xs[i]]) + xs[i + 1..];
  }

  /** What is kept of the first j bits of a word. */
  ghost function KeptOf(list: seq<int>, p: nat, r: nat, word: seq<Bit>, j: nat): seq<Bit>
    requires Terminated(list) && p < |list| && j <= |word|
  {
    Keep(list, p, r, word[..j])
  }

  lemma KeptEnds(list: seq<int>, p: nat, r: nat, word: seq<Bit>)
    requires Terminated(list) && p < |list|
    ensures KeptOf(list, p, r, word, 0) == [] && ListPos(list, p, r, 0) == p
    ensures KeptOf(list, p, r, word, |word|) == Keep(list, p, r, word)
  {
    assert word[..|word|] == word;
  }

  /** One more coded bit of a word. */
  lemma KeptStep(list: seq<int>, p: nat, r: nat, word: seq<Bit>, j: nat)
    requires Terminated(list) && p < |list| && j < |word|
    ensures var q := ListPos(list, p, r, j);
      if list[q] == r + j then
        && KeptOf(list, p, r, word, j + 1) == KeptOf(list, p, r, word, j)
        && ListPos(list, p, r, j + 1) == q + 1
      else
        && KeptOf(list, p, r, word, j + 1) == KeptOf(list, p, r, word, j) + [word[j]]
        && ListPos(list, p, r, j + 1) == q
    ensures |KeptOf(list, p, r, word, j + 1)| <= |Keep(list, p, r, word)|
  {
    hide Keep, ListPos;
    assert word[..j + 1] == word[..j] + [word[j]];
    KeepSnoc(list, p, r, word[..j], word[j]);
    assert word == word[..j + 1] + word[j + 1..];
    KeepConcat(list, p, r, word[..j + 1], word[j + 1..]);
  }

  lemma BitWritten(buf: seq<Bit>, at: nat, sent: seq<Bit>, b: Bit)
    requires at + |sent| < |buf|
    ensures Written(buf, at, sent)[at + |sent| := b] == Written(buf, at, sent + [b])
  {}

  lemma DataPathAt(input: seq<Bit>, cnt: nat)
    requires cnt <= |input|
    ensures forall i :: 0 <= i < cnt ==> DataPath(input[..cnt])[i] == Data(input[i])
  {}

  /** The encoder shifts, where the decoder masks. */
  lemma ShiftSelects(out: bv8, k: nat)
    requires k < 8
    ensures (out >> k) & 1 == 1 <==> BitOf(out, k)
  {
    if k == 0 {} else if k == 1 {} else if k == 2 {} else if k == 3 {}
    else if k == 4 {} else if k == 5 {} else if k == 6 {} else {}
  }

  ghost predicate IsSymbol(out: bv8, n: nat, sym: seq<Bit>)
    requires n <= 8
  {
    |sym| == n && forall j :: 0 <= j < n ==> sym[j] == BitOf(out, n - j - 1)
  }

  lemma SymbolBits(out: bv8, n: nat)
    requires n <= 8
    ensures IsSymbol(out, n, Symbol(out, n))
  {}

  lemma TailPathAt(cnt: nat)
    ensures forall i :: 0 <= i < cnt ==> TailPath(cnt)[i] == Tail
  {}

  lemma LoadedEmpty()
    ensures LoadedState([]) == 0
  {}

  lemma LoadedSnoc(input: seq<Bit>, at: nat, i: nat)
    requires at + i < |input|
    ensures LoadedState(input[at..at + i + 1]) == 2 * LoadedState(input[at..at + i]) + Index(input[at + i])
  {
    assert input[at..at + i + 1][..i] == input[at..at + i];
  }

  class Encoder {
    const code: Code
    var iIdx: nat
    var pIdx: nat
    var state: nat

    ghost var start: nat          // the state encoding began in
    ghost var path: seq<Input>    // what has been encoded since
    ghost var sent: seq<Bit>      // what has been sent for it

    ghost predicate Valid()
      reads this
    {
      && code.Valid() && start < code.States()
      && state == EndState(code, start, path)
      && iIdx == |path|
      && pIdx == EmitPos(code, 0, 0, start, path)
      && sent == Emit(code, 0, 0, start, path)
    }

    constructor (code: Code)
      requires code.Valid()
      ensures this.code == code && Valid() && start == 0 && path == []
    {
      this.code := code;
      iIdx, pIdx, state := 0, 0, 0;
      start, path, sent := 0, [], [];
    }

    /** Puts a new encoder in the state spelled by K - 1 bits, for tail biting. */
    method LoadState(input: seq<Bit>, at: nat)
      requires Valid() && path == [] && at + code.k - 1 <= |input|
      modifies this
      ensures Valid() && path == [] && start == LoadedState(input[at..at + code.k - 1])
    {
      hide LoadedState;
      LoadedEmpty();
      var st: nat := 0;
      for i := 0 to code.k - 1
        modifies {}
        invariant st == LoadedState(input[at..at + i])
      {
        LoadedSnoc(input, at, i);
        st := 2 * st + Index(input[at + i]);
      }
      state := st;
      start := st;
    }

    /** Writes the bits of one output word that are not punctured. */
    method DoOutput(out: bv8, output: array<Bit>, at: nat) returns (oIdx: nat)
      requires code.Valid() && pIdx < |code.Punctures()|
      requires at + |Keep(code.Punctures(), pIdx, iIdx * code.n, Symbol(out, code.n))| <= output.Length
      modifies `pIdx, output
      ensures pIdx == ListPos(code.Punctures(), old(pIdx), iIdx * code.n, code.n)
      ensures var word := Keep(code.Punctures(), old(pIdx), iIdx * code.n, Symbol(out, code.n));
        oIdx == |word| && output[..] == Written(old(output[..]), at, word)
    {
      hide Keep, ListPos, Symbol, Written;
      SymbolBits(out, code.n);
      if code.puncture.Some? {
        oIdx := DoPunctured(out, code.n, Symbol(out, code.n), output, at, code.puncture.value, iIdx * code.n);
      } else {
        KeepNothingPunctured(iIdx * code.n, Symbol(out, code.n));
        oIdx := DoUnpunctured(out, code.n, Symbol(out, code.n), output, at);
      }
    }

    /** The output buffer, once word has been written over buf at index at. */
    static ghost predicate Holds(output: array<Bit>, buf: seq<Bit>, at: nat, word: seq<Bit>)
      requires at + |word| <= |buf|
      reads output
    {
      output[..] == Written(buf, at, word)
    }

    static lemma NothingWritten(output: array<Bit>, at: nat)
      requires at <= output.Length
      ensures Holds(output, output[..], at, [])
    {}

    static lemma AllWritten(output: array<Bit>, buf: seq<Bit>, at: nat, word: seq<Bit>)
      requires at + |word| <= |buf| && Holds(output, buf, at, word)
      ensures output[..] == Written(buf, at, word)
    {}

    static method Put(output: array<Bit>, ghost buf: seq<Bit>, at: nat, ghost word: seq<Bit>, i: nat, b: Bit)
      requires i == at + |word| < |buf| && Holds(output, buf, at, word)
      modifies output
      ensures Holds(output, buf, at, word + [b])
    {
      BitWritten(buf, at, word, b);
      output[i] := b;
    }

    /** The loop of DoOutput for a code without puncturing. */
    static method DoUnpunctured(out: bv8, n: nat, ghost sym: seq<Bit>, output: array<Bit>, at: nat)
      returns (oIdx: nat)
      requires n <= 8 && at + n <= output.Length && IsSymbol(out, n, sym)
      modifies output
      ensures oIdx == n && output[..] == Written(old(output[..]), at, sym)
    {
      hide Written, Holds, BitOf;
      ghost var buf, word := output[..], [];
      NothingWritten(output, at);
      oIdx := 0;
      for j := 0 to n
        invariant oIdx == |word| == j && word == sym[..j]
        invariant Holds(output, buf, at, word)
      {
        ShiftSelects(out, n - j - 1);
        Put(output, buf, at, word, at + oIdx, (out >> (n - j - 1)) & 1 == 1);
        oIdx := oIdx + 1;
        word := word + [sym[j]];
      }
      assert sym[..n] == sym;
      AllWritten(output, buf, at, word);
    }

    /** The loop of DoOutput for a punctured code. */
    method DoPunctured(out: bv8, n: nat, ghost sym: seq<Bit>, output: array<Bit>, at: nat,
                       list: seq<int>, r: nat)
      returns (oIdx: nat)
      requires n <= 8 && Terminated(list) && pIdx < |list| && IsSymbol(out, n, sym)
      requires at + |Keep(list, pIdx, r, sym)| <= output.Length
      modifies `pIdx, output
      ensures pIdx == ListPos(list, old(pIdx), r, n)
      ensures var word := Keep(list, old(pIdx), r, sym);
        oIdx == |word| && output[..] == Written(old(output[..]), at, word)
    {
      hide KeptOf, Keep, Written, ListPos, BitOf, Holds;
      ghost var p0, buf, word := pIdx, output[..], [];
      oIdx := 0;
      KeptEnds(list, p0, r, sym);
      NothingWritten(output, at);
      for j := 0 to n
        invariant pIdx == ListPos(list, p0, r, j)
        invariant word == KeptOf(list, p0, r, sym, j) && oIdx == |word| <= |Keep(list, p0, r, sym)|
        invariant Holds(output, buf, at, word)
      {
        KeptStep(list, p0, r, sym, j);
        var bitNo, rIdx := n - j - 1, r + j;
        if list[pIdx] == rIdx {
          pIdx := pIdx + 1;
        } else {
          ShiftSelects(out, bitNo);
          Put(output, buf, at, word, at + oIdx, (out >> bitNo) & 1 == 1);
          oIdx := oIdx + 1;
          word := word + [sym[j]];
        }
      }
      AllWritten(output, buf, at, word);
    }

    /** One trellis step: sends the word of branch x and moves on to the next state. */
    method Step(x: Input, output: array<Bit>, at: nat) returns (oIdx: nat, ghost word: seq<Bit>)
      requires Valid()
      requires at + |Emit(code, 0, 0, start, path + [x])| <= output.Length + |sent|
      modifies this, output
      ensures Valid() && start == old(start) && path == old(path) + [x]
      ensures sent == old(sent) + word && oIdx == |word|
      ensures at + oIdx <= output.Length && output[..] == Written(old(output[..]), at, word)
    {
      hide EndState, EmitPos, Emit, Keep, ListPos, Written, Symbol;
      EmitStep(code, start, path, x);
      var out, next := code.Out(state, x), code.Next(state, x);
      word := Keep(code.Punctures(), pIdx, iIdx * code.n, Symbol(out, code.n));
      oIdx := DoOutput(out, output, at);
      iIdx, state := iIdx + 1, next;
      path, sent := path + [x], sent + word;
    }

    lemma BeforePath(xs: seq<Input>, output: array<Bit>, at: nat)
      requires Valid() && at + |Emit(code, 0, 0, start, path + xs)| <= output.Length + |sent|
      ensures code.Valid() && start < code.States() && at <= output.Length
      ensures Written(output[..], at, []) == output[..]
      ensures path + xs[..0] == path && sent + [] == sent && xs[..|xs|] == xs
    {
      hide Emit, EmitPos, EndState;
      EmitPrefix(code, start, path, xs);
    }

    /** Encodes cnt data bits; output receives what is not punctured, from index at on. */
    method EncodeRaw(input: seq<Bit>, output: array<Bit>, at: nat, cnt: nat) returns (oIdx: nat, ghost word: seq<Bit>)
      requires Valid() && cnt <= |input|
      requires at + |Emit(code, 0, 0, start, path + DataPath(input[..cnt]))| <= output.Length + |sent|
      modifies this, output
      ensures Valid() && start == old(start) && path == old(path) + DataPath(input[..cnt])
      ensures sent == old(sent) + word && oIdx == |word|
      ensures at + oIdx <= output.Length && output[..] == Written(old(output[..]), at, word)
    {
      hide EndState, EmitPos, Emit, Written, DataPath, TailPath, Valid, Code.Valid;
      ghost var xs, path0, sent0, buf := DataPath(input[..cnt]), path, sent, output[..];
      BeforePath(xs, output, at);
      oIdx, word := 0, [];
      DataPathAt(input, cnt);
      for i := 0 to cnt
        invariant Valid() && start == old(start) && path == path0 + xs[..i]
        invariant sent == sent0 + word && oIdx == |word| && at + oIdx <= output.Length
        invariant output[..] == Written(buf, at, word)
      {
        PathStep(code, start, path0, xs, i);
        var o, w := Step(Data(input[i]), output, at + oIdx);
        WrittenTwice(buf, at, word, w);
        ConcatAssoc(sent0, word, w);
        oIdx, word := oIdx + o, word + w;
      }
    }

    /** Runs the K - 1 termination steps. */
    method EncodeFlush(output: array<Bit>, at: nat) returns (oIdx: nat, ghost word: seq<Bit>)
      requires Valid()
      requires at + |Emit(code, 0, 0, start, path + TailPath(code.k - 1))| <= output.Length + |sent|
      modifies this, output
      ensures Valid() && start == old(start) && path == old(path) + TailPath(code.k - 1)
      ensures sent == old(sent) + word && oIdx == |word|
      ensures at + oIdx <= output.Length && output[..] == Written(old(output[..]), at, word)
    {
      var cnt := code.k - 1;
      hide EndState, EmitPos, Emit, Written, DataPath, TailPath, Valid, Code.Valid;
      ghost var xs, path0, sent0, buf := TailPath(cnt), path, sent, output[..];
      BeforePath(xs, output, at);
      oIdx, word := 0, [];
      TailPathAt(cnt);
      for i := 0 to cnt
        invariant Valid() && start == old(start) && path == path0 + xs[..i]
        invariant sent == sent0 + word && oIdx == |word| && at + oIdx <= output.Length
        invariant output[..] == Written(buf, at, word)
      {
        PathStep(code, start, path0, xs, i);
        var o, w := Step(Tail, output, at + oIdx);
        WrittenTwice(buf, at, word, w);
        ConcatAssoc(sent0, word, w);
        oIdx, word := oIdx + o, word + w;
      }
    }
  }

  lemma EncodedParts(code: Code, bits: seq<Bit>)
    requires code.Valid()
    requires code.term == TailBiting ==> |bits| >= code.k - 1
    ensures code.term == Flush ==>
      Encoded(code, bits) == Emit(code, 0, 0, StartState(code, bits), DataPath(bits) + TailPath(code.k - 1))
    ensures code.term != Flush ==>
      Encoded(code, bits) == Emit(code, 0, 0, StartState(code, bits), DataPath(bits))
  {
    hide Keep, Codeword, DataPath, TailPath, LoadedState;
  }

  /** Encodes a whole message; the result is the number of bits written to output. */
  method Encode(code: Code, input: seq<Bit>, output: array<Bit>) returns (l: nat)
    requires code.Valid() && |input| == code.len
    requires code.term == TailBiting ==> code.len >= code.k - 1
    requires |Encoded(code, input)| <= output.Length
    modifies output
    ensures l == |Encoded(code, input)|
    ensures output[..] == Written(old(output[..]), 0, Encoded(code, input))
  {
    hide Emit, EmitPos, EndState, Encoded, Written, DataPath, TailPath, StartState;
    var encoder := NewEncoder(code, input);
    ghost var s, data, tail, buf := encoder.start, DataPath(input), TailPath(code.k - 1), output[..];
    assert input[..code.len] == input && [] + data == data;
    EmitPrefix(code, s, data, tail);
    EncodedParts(code, input);
    ghost var word, flushWord;
    l, word := encoder.EncodeRaw(input, output, 0, code.len);
    assert encoder.path == data && encoder.sent == word;
    if code.term == Flush {
      var flushed;
      flushed, flushWord := encoder.EncodeFlush(output, l);
      assert encoder.path == data + tail && encoder.sent == word + flushWord;
      WrittenTwice(buf, 0, word, flushWord);
      l := l + flushed;
    }
  }

  /** A new encoder in the state the code's termination asks for. */
  method NewEncoder(code: Code, input: seq<Bit>) returns (encoder: Encoder)
    requires code.Valid() && |input| == code.len
    requires code.term == TailBiting ==> code.len >= code.k - 1
    ensures fresh(encoder) && encoder.Valid() && encoder.code == code
    ensures encoder.start == StartState(code, input) && encoder.path == [] && encoder.sent == []
  {
    encoder := new Encoder(code);
    if code.term == TailBiting {
      var eIdx := code.len - code.k + 1;
      encoder.LoadState(input, eIdx);
      assert input[eIdx..eIdx + code.k - 1] == input[|input| - (code.k - 1)..];
    }
  }
}
