/** Decoding what was encoded: the noiseless channel, and when a flushed message is decodable. */
module ConvRoundTrip {
  import opened ConvCode
  import opened ConvTrellis
  import opened ConvEncode
  import opened ConvDecode
  import opened ConvMessage

  /** The strongest soft value of a bit. */
  function Soft(b: Bit): int {
    if b then -127 else 127
  }

  function SoftBits(bits: seq<Bit>): (soft: seq<int>)
    ensures |soft| == |bits|
  {
    seq(|bits|, i requires 0 <= i < |bits| => Soft(bits[i]))
  }

  lemma NoBitErr(sent: Bit, b: Bit)
    ensures BitErr(Soft(sent), b) == 0 <==> b == sent
    ensures BitErr(0, b) == 0
  {
    assert Squared(254) == 64516 && Squared(-254) == 64516 && Squared(0) == 0;
  }

  lemma AppendedEqual(a: seq<Bit>, x: Bit, b: seq<Bit>, y: Bit)
    requires |a| == |b|
    ensures a + [x] == b + [y] <==> a == b && x == y
  {
    if a + [x] == b + [y] {
      assert a == (a + [x])[..|a|] && x == (a + [x])[|a|];
    }
  }

  /** Undisturbed soft bits of what was kept of a word, followed by anything. */
  function Undisturbed(list: seq<int>, p: nat, r: nat, sent: seq<Bit>, rest: seq<int>): (soft: seq<int>)
    requires Terminated(list) && p < |list|
    ensures |soft| >= |sent| - (ListPos(list, p, r, |sent|) - p)
  {
    SoftBits(Keep(list, p, r, sent)) + rest
  }

  /** The last bit of a word, as the decoder reads it back. */
  lemma LastBitReceived(list: seq<int>, p: nat, r: nat, sent: seq<Bit>, rest: seq<int>)
    requires Terminated(list) && p < |list| && sent != []
    ensures var m := |sent| - 1;
      var dropped := Dropped(list, p, r, m);
      var later := if dropped then rest else [Soft(sent[m])] + rest;
      Received(list, p, r, |sent|, Undisturbed(list, p, r, sent, rest))
        == Received(list, p, r, m, Undisturbed(list, p, r, sent[..m], later))
           + [if dropped then 0 else Soft(sent[m])]
  {
    hide Terminated, Soft;
    var m := |sent| - 1;
    var later := if Dropped(list, p, r, m) then rest else [Soft(sent[m])] + rest;
    assert Undisturbed(list, p, r, sent, rest) == Undisturbed(list, p, r, sent[..m], later);
  }

  lemma LastBitKept(list: seq<int>, p: nat, r: nat, word: seq<Bit>)
    requires Terminated(list) && p < |list| && word != []
    ensures var m := |word| - 1;
      Keep(list, p, r, word)
        == if Dropped(list, p, r, m) then Keep(list, p, r, word[..m]) else Keep(list, p, r, word[..m]) + [word[m]]
  {}

  lemma WordErrLast(sym: seq<int>, soft: int, word: seq<Bit>)
    requires |word| == |sym| + 1
    ensures WordErr(sym + [soft], word) == WordErr(sym, word[..|sym|]) + BitErr(soft, word[|sym|])
  {
    assert (sym + [soft])[..|sym|] == sym;
  }

  /**
    One output word. From undisturbed soft bits of what was kept of a word, another word has
    no error exactly when the same bits are kept of it: punctured positions do not matter,
    all others must agree.
   */
  lemma {:induction false} NoWordErr(list: seq<int>, p: nat, r: nat, sent: seq<Bit>, word: seq<Bit>, rest: seq<int>)
    requires Terminated(list) && p < |list| && |sent| == |word|
    ensures WordErr(Received(list, p, r, |sent|, Undisturbed(list, p, r, sent, rest)), word) == 0
       <==> Keep(list, p, r, word) == Keep(list, p, r, sent)
  {
    hide Terminated, BitErr, Soft, Keep, Undisturbed, ListPos, Dropped;
    if sent != [] {
      var m := |sent| - 1;
      var dropped := Dropped(list, p, r, m);
      var later := if dropped then rest else [Soft(sent[m])] + rest;
      LastBitReceived(list, p, r, sent, rest);
      WordErrLast(Received(list, p, r, m, Undisturbed(list, p, r, sent[..m], later)),
                  if dropped then 0 else Soft(sent[m]), word);
      NoWordErr(list, p, r, sent[..m], word[..m], later);
      NoBitErr(sent[m], word[m]);
      LastBitKept(list, p, r, sent);
      LastBitKept(list, p, r, word);
      AppendedEqual(Keep(list, p, r, word[..m]), word[m], Keep(list, p, r, sent[..m]), sent[m]);
    } else {
      NothingKept(list, p, r);
    }
  }

  lemma NothingKept(list: seq<int>, p: nat, r: nat)
    requires Terminated(list) && p < |list|
    ensures Keep(list, p, r, []) == [] && ListPos(list, p, r, 0) == p
  {}

  // ---------------------------------------------------------------- whole paths

  /** The output word of branch x of state s. */
  function StepWord(code: Code, s: nat, x: Input): (word: seq<Bit>)
    requires code.Valid() && s < code.States()
    ensures |word| == code.n
  {
    Symbol(code.Out(s, x), code.n)
  }

  lemma EmitLength(code: Code, s: nat, path: seq<Input>)
    requires code.Valid() && s < code.States()
    ensures |Emit(code, 0, 0, s, path)| == UsedBy(code, |path|)
    ensures EmitPos(code, 0, 0, s, path) == PosAfter(code, |path|)
  {
    hide Codeword, Keep, ListPos, Code.Valid;
    CodewordLength(code, s, path);
  }

  /** Encoder and decoder agree on which positions of a step are punctured. */
  lemma LastStepSent(code: Code, s: nat, path: seq<Input>, x: Input)
    requires code.Valid() && s < code.States()
    ensures Emit(code, 0, 0, s, path + [x])
         == Emit(code, 0, 0, s, path)
            + Keep(code.Punctures(), PosAfter(code, |path|), CodedBits(code, |path|),
                   StepWord(code, EndState(code, s, path), x))
  {
    hide Codeword, Keep, ListPos, Code.Valid, Emit, EmitPos, PosAfter, Symbol;
    EmitLength(code, s, path);
    EmitStep(code, s, path, x);
  }

  /** The soft bits from the step after path on, when the encoder goes on with branch x. */
  function LastSoft(code: Code, s: nat, path: seq<Input>, x: Input, rest: seq<int>): (soft: seq<int>)
    requires code.Valid() && s < code.States()
    ensures UsedBy(code, |path| + 1) - UsedBy(code, |path|) <= |soft|
  {
    StepUse(code, |path|);
    Undisturbed(code.Punctures(), PosAfter(code, |path|), CodedBits(code, |path|),
                StepWord(code, EndState(code, s, path), x), rest)
  }

  /** The last step the decoder reads from an undisturbed word. */
  lemma LastStepReceived(code: Code, s: nat, path: seq<Input>, x: Input, rest: seq<int>, tails: seq<bool>, tail: bool)
    requires code.Valid() && s < code.States() && |tails| == |path|
    ensures var soft := SoftBits(Emit(code, 0, 0, s, path + [x])) + rest;
      && UsedBy(code, |path|) <= UsedBy(code, |path| + 1) <= |soft|
      && soft == SoftBits(Emit(code, 0, 0, s, path)) + LastSoft(code, s, path, x, rest)
      && StepsOf(code, tails + [tail], soft)
         == StepsOf(code, tails, soft) + [StepAt(code, |path|, LastSoft(code, s, path, x, rest), tail)]
  {
    hide Codeword, Keep, ListPos, Code.Valid, Emit, EmitPos, PosAfter, CodedBits, UsedBy, StepsOf,
      Soft, StepWord, EndState, StepAt;
    var soft := SoftBits(Emit(code, 0, 0, s, path + [x])) + rest;
    LastStepSent(code, s, path, x);
    EmitLength(code, s, path);
    EmitLength(code, s, path + [x]);
    StepsUnfold(code, tails, tail, soft);
    var word := StepWord(code, EndState(code, s, path), x);
    var kept := Keep(code.Punctures(), PosAfter(code, |path|), CodedBits(code, |path|), word);
    assert soft == SoftBits(Emit(code, 0, 0, s, path)) + (SoftBits(kept) + rest);
    assert soft[UsedBy(code, |path|)..] == SoftBits(kept) + rest;
  }

  /** One step: another branch has no error exactly when it sends the same bits. */
  lemma NoStepErr(code: Code, s: nat, sent: seq<Input>, x: Input, t: nat, y: Input, rest: seq<int>, tail: bool)
    requires code.Valid() && s < code.States() && t < code.States()
    ensures var list, p, r := code.Punctures(), PosAfter(code, |sent|), CodedBits(code, |sent|);
      BranchErr(code, StepAt(code, |sent|, LastSoft(code, s, sent, x, rest), tail).sym, t, y) == 0
      <==> Keep(list, p, r, StepWord(code, t, y)) == Keep(list, p, r, StepWord(code, EndState(code, s, sent), x))
  {
    hide Keep, ListPos, Code.Valid, PosAfter, CodedBits, UsedBy, Received, Undisturbed, WordErr, EndState;
    StepUse(code, |sent|);
    NoWordErr(code.Punctures(), PosAfter(code, |sent|), CodedBits(code, |sent|),
              StepWord(code, EndState(code, s, sent), x), StepWord(code, t, y), rest);
  }

  /** A path follows the steps that another one made the decoder read. */
  lemma {:induction false} NoPathErr(code: Code, tails: seq<bool>, s: nat, sent: seq<Input>,
                                     s': nat, path: seq<Input>, rest: seq<int>)
    requires code.Valid() && s < code.States() && s' < code.States()
    requires |sent| == |path| == |tails| && forall i :: 0 <= i < |tails| ==> (path[i].Tail? <==> tails[i])
    ensures var soft := SoftBits(Emit(code, 0, 0, s, sent)) + rest;
      && UsedBy(code, |tails|) <= |soft|
      && Follows(StepsOf(code, tails, soft), path)
      && (PathErr(code, StepsOf(code, tails, soft), s', path) == 0
          <==> Emit(code, 0, 0, s', path) == Emit(code, 0, 0, s, sent))
  {
    hide Codeword, Keep, ListPos, Code.Valid, Emit, EmitPos, PosAfter, CodedBits, UsedBy, StepsOf, SoftBits,
      LastSoft, StepAt, StepWord, BranchErr, EndState, PathErr;
    var soft := SoftBits(Emit(code, 0, 0, s, sent)) + rest;
    EmitLength(code, s, sent);
    EmitLength(code, s', path);
    forall i | 0 <= i < |tails| ensures StepsOf(code, tails, soft)[i].tail == tails[i] {
      StepTail(code, tails, soft, i);
    }
    if tails == [] {
      NoPath(code, StepsOf(code, tails, soft), s', path);
      NoUse(code);
      assert Emit(code, 0, 0, s', path) == Emit(code, 0, 0, s, sent);
    } else {
      var m := |tails| - 1;
      assert tails == tails[..m] + [tails[m]] && sent == sent[..m] + [sent[m]] && path == path[..m] + [path[m]];
      var rest', t := LastSoft(code, s, sent[..m], sent[m], rest), EndState(code, s', path[..m]);
      LastStepReceived(code, s, sent[..m], sent[m], rest, tails[..m], tails[m]);
      NoPathErr(code, tails[..m], s, sent[..m], s', path[..m], rest');
      NoStepErr(code, s, sent[..m], sent[m], t, path[m], rest, tails[m]);
      PathSnoc(code, StepsOf(code, tails, soft), s', path[..m], path[m]);
      LastStepSent(code, s, sent[..m], sent[m]);
      LastStepSent(code, s', path[..m], path[m]);
      EmitLength(code, s, sent[..m]);
      EmitLength(code, s', path[..m]);
      var list, p, r := code.Punctures(), PosAfter(code, m), CodedBits(code, m);
      ConcatEqual(Emit(code, 0, 0, s', path[..m]), Keep(list, p, r, StepWord(code, t, path[m])),
                  Emit(code, 0, 0, s, sent[..m]),
                  Keep(list, p, r, StepWord(code, EndState(code, s, sent[..m]), sent[m])));
    }
  }

  lemma NoPath(code: Code, steps: seq<Step>, s: nat, path: seq<Input>)
    requires code.Valid() && s < code.States() && WellFormed(code, steps) && Follows(steps, path) && path == []
    ensures PathErr(code, steps, s, path) == 0
  {}

  lemma ConcatEqual(a: seq<Bit>, b: seq<Bit>, c: seq<Bit>, d: seq<Bit>)
    requires |a| == |c|
    ensures a + b == c + d <==> a == c && b == d
  {
    if a + b == c + d {
      assert a == (a + b)[..|a|] && b == (a + b)[|a|..];
    }
  }

  // ---------------------------------------------------------------- whole messages

  /** The error of a message is zero exactly when it is encoded like the one that was sent. */
  lemma NoMessageErr(code: Code, sent: seq<Bit>, bits: seq<Bit>, rest: seq<int>)
    requires code.Valid() && code.term != TailBiting && |sent| == |bits| == code.len
    ensures var input := SoftBits(Encoded(code, sent)) + rest;
      && MessageUse(code) <= |input|
      && (MessageErr(code, input, 0, bits) == 0 <==> Encoded(code, bits) == Encoded(code, sent))
  {
    hide Codeword, Keep, Code.Valid, UsedBy, StepsOf, PathErr, Marks, DataPath, TailPath;
    var tails := MessageTails(code);
    MessageLengths(code);
    forall i | 0 <= i < |tails| ensures MessagePath(code, bits)[i].Tail? <==> tails[i] {
      MessageKinds(code, bits, i);
    }
    NoPathErr(code, tails, 0, MessagePath(code, sent), 0, MessagePath(code, bits), rest);
  }

  lemma MessageKinds(code: Code, bits: seq<Bit>, i: nat)
    requires code.Valid() && |bits| == code.len && i < |MessageTails(code)|
    ensures |MessagePath(code, bits)| == |MessageTails(code)|
    ensures MessagePath(code, bits)[i].Tail? <==> MessageTails(code)[i]
  {}

  /** What was sent undisturbed can be decoded, however long the message is. */
  lemma UndisturbedDecodable(code: Code, sent: seq<Bit>, rest: seq<int>)
    requires code.Valid() && code.term == Flush && |sent| == code.len && EndsInZero(code, sent)
    ensures var input := SoftBits(Encoded(code, sent)) + rest;
      MessageUse(code) <= |input| && Decodable(code, input)
  {
    hide Encoded, MessageUse, MessageErr, MessagePath, Code.Valid;
    NoMessageErr(code, sent, sent, rest);
  }

  /**
    Decoding an undisturbed word gives error 0 and a message that is encoded to the same
    word, punctured or not; it is the original message when the encoder is injective.
   */
  lemma NoiselessRoundTrip(code: Code, sent: seq<Bit>, rest: seq<int>, bits: seq<Bit>, rv: int)
    requires code.Valid() && code.term != TailBiting && |sent| == code.len
    requires code.term == Flush ==> EndsInZero(code, sent)
    requires MessageUse(code) <= |SoftBits(Encoded(code, sent)) + rest|
    requires Best(code, SoftBits(Encoded(code, sent)) + rest, bits, rv)
    ensures rv == 0 && |bits| == code.len && Encoded(code, bits) == Encoded(code, sent)
    ensures (forall a, b :: |a| == |b| == code.len && Encoded(code, a) == Encoded(code, b) ==> a == b) ==> bits == sent
  {
    hide Encoded, MessageUse, MessageErr, MessagePath, Code.Valid;
    NoMessageErr(code, sent, sent, rest);
    NoMessageErr(code, sent, bits, rest);
  }

  // ---------------------------------------------------------------- saturation

  function FlushedState(code: Code, s: nat): nat
    requires code.Valid() && s < code.States()
  {
    EndState(code, s, TailPath(code.k - 1))
  }

  /** Flushing leads to state 0 whatever state the data bits end in. */
  predicate FlushesToZero(code: Code)
    requires code.Valid()
  {
    forall s :: 0 <= s < code.States() ==> FlushedState(code, s) == 0
  }

  predicate SoftRange(input: seq<int>) {
    forall i :: 0 <= i < |input| ==> -128 <= input[i] <= 127
  }

  lemma BitErrBound(soft: int, b: Bit)
    requires -128 <= soft <= 127
    ensures BitErr(soft, b) <= 127
  {
    var d := soft - if b then -127 else 127;
    SquareBound(d);
  }

  lemma SquareBound(d: int)
    requires -255 <= d <= 255
    ensures Squared(d) <= 65025
  {
    var a := if d < 0 then -d else d;
    assert Squared(d) == a * a;
    MulAtMost(a, 255, a);
    MulAtMost(a, 255, 255);
  }

  lemma MulAtMost(a: nat, m: nat, b: nat)
    requires a <= m
    ensures a * b <= m * b
  {
    assert m * b == a * b + (m - a) * b;
  }

  lemma {:induction false} WordErrBound(sym: seq<int>, word: seq<Bit>)
    requires |sym| == |word| && SoftRange(sym)
    ensures WordErr(sym, word) <= 127 * |sym|
  {
    if sym != [] {
      var m := |sym| - 1;
      WordErrBound(sym[..m], word[..m]);
      BitErrBound(sym[m], word[m]);
    }
  }

  lemma {:induction false} ReceivedRange(list: seq<int>, p: nat, r: nat, m: nat, input: seq<int>)
    requires Terminated(list) && p < |list| && SoftRange(input)
    requires m - (ListPos(list, p, r, m) - p) <= |input|
    ensures SoftRange(Received(list, p, r, m, input))
  {
    if m > 0 { ReceivedRange(list, p, r, m - 1, input); }
  }

  lemma {:induction false} StepsRange(code: Code, tails: seq<bool>, input: seq<int>, i: nat)
    requires code.Valid() && UsedBy(code, |tails|) <= |input| && SoftRange(input) && i < |tails|
    ensures SoftRange(StepsOf(code, tails, input)[i].sym)
  {
    hide UsedBy, PosAfter, CodedBits, Received, ListPos, Code.Valid, SoftRange;
    var m := |tails| - 1;
    StepUse(code, m);
    if i < m {
      StepsRange(code, tails[..m], input, i);
    } else {
      var input' := input[UsedBy(code, m)..];
      SuffixRange(input, UsedBy(code, m));
      ReceivedRange(code.Punctures(), PosAfter(code, m), CodedBits(code, m), code.n, input');
    }
  }

  lemma SuffixRange(input: seq<int>, at: nat)
    requires at <= |input| && SoftRange(input)
    ensures SoftRange(input[at..])
  {}

  lemma {:induction false} PathErrBound(code: Code, steps: seq<Step>, s: nat, path: seq<Input>)
    requires code.Valid() && s < code.States() && WellFormed(code, steps) && Follows(steps, path)
    requires forall i :: 0 <= i < |steps| ==> SoftRange(steps[i].sym)
    ensures PathErr(code, steps, s, path) <= |steps| * (127 * code.n)
  {
    hide Code.Valid, SoftRange, EndState, Symbol;
    if path != [] {
      var m := |path| - 1;
      PathErrBound(code, steps[..m], s, path[..m]);
      WordErrBound(steps[m].sym, StepWord(code, EndState(code, s, path[..m]), path[m]));
      MulSucc(m, 127 * code.n);
    }
  }

  /** A flushed message that is not absurdly long is always decodable, whatever was received. */
  lemma ShortDecodable(code: Code, input: seq<int>)
    requires code.Valid() && code.term == Flush && FlushesToZero(code)
    requires MessageUse(code) <= |input| && SoftRange(input)
    requires (code.len + code.k - 1) * (127 * code.n) < MAX_AE
    ensures Decodable(code, input)
  {
    hide Code.Valid, UsedBy, StepsOf, DataPath, TailPath, SoftRange, EndState, PathErr;
    var bits := seq(code.len, i => false);
    var tails, steps := MessageTails(code), MessageSteps(code, input);
    MessageLengths(code);
    MessageFollows(code, input, bits);
    forall i | 0 <= i < |steps| ensures SoftRange(steps[i].sym) {
      StepsRange(code, tails, input, i);
    }
    PathErrBound(code, steps, 0, MessagePath(code, bits));
    PathConcat(code, 0, DataPath(bits), TailPath(code.k - 1));
    assert FlushedState(code, EndState(code, 0, DataPath(bits))) == 0;
    assert EndsInZero(code, bits) && MessageErr(code, input, 0, bits) < MAX_AE;
  }
}
