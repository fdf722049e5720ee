/**
  What the decoder minimises, said of the received soft bits and the encoder's output alone: the
  squared distance between them, up to what scaling by 512 rounds off for each soft bit.
 */
module ConvDistance {
  import opened ConvCode
  import opened ConvTrellis
  import opened ConvEncode
  import opened ConvDecode
  import opened ConvMessage
  import opened ConvRoundTrip

  /** The sum of the squares of x[i] - s[i], where s[i] is 127 for a 0 and -127 for a 1; erasures do not count. */
  function Distance(x: seq<int>, c: seq<Bit>): (d: nat)
    requires |x| == |c|
  {
    if x == [] then 0
    else
      var m := |x| - 1;
      var e := if c[m] then x[m] + 127 else x[m] - 127;
      Distance(x[..m], c[..m]) + if x[m] == 0 then 0 else e * e
  }

  /** The number of soft bits that are no erasures. */
  function Count(x: seq<int>): nat {
    if x == [] then 0 else Count(x[..|x| - 1]) + if x[|x| - 1] == 0 then 0 else 1
  }

  /** e is the distance in units of 512, where less than one unit is lost for each soft bit. */
  predicate Close(e: nat, x: seq<int>, c: seq<Bit>)
  {
    |x| == |c| && 512 * e <= Distance(x, c) <= 512 * e + 511 * Count(x)
  }

  lemma CloseBit(soft: int, b: Bit)
    ensures Close(BitErr(soft, b), [soft], [b])
  {
    var e := if b then soft + 127 else soft - 127;
    assert [soft][..0] == [] && [b][..0] == [];
    assert Distance([soft], [b]) == if soft == 0 then 0 else e * e;
    assert Count([soft]) == if soft == 0 then 0 else 1;
  }

  lemma {:induction false} DistanceJoin(x: seq<int>, c: seq<Bit>, y: seq<int>, d: seq<Bit>)
    requires |x| == |c| && |y| == |d|
    ensures Distance(x + y, c + d) == Distance(x, c) + Distance(y, d) && Count(x + y) == Count(x) + Count(y)
    decreases |y|
  {
    if y == [] {
      assert x + y == x && c + d == c;
    } else {
      var m := |y| - 1;
      assert (x + y)[..|x + y| - 1] == x + y[..m] && (c + d)[..|c + d| - 1] == c + d[..m];
      DistanceJoin(x, c, y[..m], d[..m]);
    }
  }

  lemma CloseJoin(e: nat, x: seq<int>, c: seq<Bit>, f: nat, y: seq<int>, d: seq<Bit>)
    requires Close(e, x, c) && Close(f, y, d)
    ensures Close(e + f, x + y, c + d)
  {
    DistanceJoin(x, c, y, d);
  }

  lemma NothingClose()
    ensures Close(0, [], [])
  {}

  /** The last bit of a word: if it is sent, its soft bit is the next one received. */
  lemma LastBit(list: seq<int>, p: nat, r: nat, word: seq<Bit>, input: seq<int>)
    requires Terminated(list) && p < |list| && word != []
    requires |Keep(list, p, r, word)| <= |input|
    ensures var m := |word| - 1;
      var before, dropped := Keep(list, p, r, word[..m]), Dropped(list, p, r, m);
      && Keep(list, p, r, word) == before + (if dropped then [] else [word[m]])
      && (!dropped ==> |before| < |input|)
      && Received(list, p, r, |word|, input)
         == Received(list, p, r, m, input) + [if dropped then 0 else input[|before|]]
  {
    hide Terminated;
  }

  /** One output word: what was received for it, against the bits of it that are sent. */
  lemma {:induction false} WordDistance(list: seq<int>, p: nat, r: nat, word: seq<Bit>, input: seq<int>)
    requires Terminated(list) && p < |list|
    requires |Keep(list, p, r, word)| <= |input|
    ensures var kept := Keep(list, p, r, word);
      Close(WordErr(Received(list, p, r, |word|, input), word), input[..|kept|], kept)
  {
    hide Terminated, Close, BitErr, Keep, Received, ListPos, Dropped;
    var kept := Keep(list, p, r, word);
    if word == [] {
      NothingClose();
      NothingKept(list, p, r);
      assert input[..0] == [];
    } else {
      var m := |word| - 1;
      LastBit(list, p, r, word, input);
      WordDistance(list, p, r, word[..m], input);
      var before, dropped := Keep(list, p, r, word[..m]), Dropped(list, p, r, m);
      var soft := if dropped then 0 else input[|before|];
      WordErrLast(Received(list, p, r, m, input), soft, word);
      if dropped {
        ErasedBit(word[m]);
        assert kept == before;
      } else {
        CloseBit(soft, word[m]);
        CloseJoin(WordErr(Received(list, p, r, m, input), word[..m]), input[..|before|], before,
          BitErr(soft, word[m]), [soft], [word[m]]);
        assert input[..|kept|] == input[..|before|] + [soft];
      }
    }
  }

  lemma ErasedBit(b: Bit)
    ensures BitErr(0, b) == 0
  {}

  /** A whole path: its error is the distance of what was received from what the path sends. */
  lemma {:induction false} PathDistance(code: Code, tails: seq<bool>, s: nat, path: seq<Input>, input: seq<int>)
    requires code.Valid() && s < code.States() && UsedBy(code, |tails|) <= |input|
    requires |path| == |tails| && Follows(StepsOf(code, tails, input), path)
    ensures Close(PathErr(code, StepsOf(code, tails, input), s, path), input[..UsedBy(code, |tails|)],
                  Emit(code, 0, 0, s, path))
  {
    hide Codeword, Keep, ListPos, Code.Valid, Emit, EmitPos, PosAfter, CodedBits, UsedBy, StepsOf, Received,
      StepWord, EndState, PathErr, Close, WordErr, Symbol;
    var steps := StepsOf(code, tails, input);
    EmitLength(code, s, path);
    if tails == [] {
      NoPath(code, steps, s, path);
      NoUse(code);
      NothingClose();
      assert input[..0] == [] && Emit(code, 0, 0, s, path) == [];
    } else {
      var m := |tails| - 1;
      assert tails == tails[..m] + [tails[m]] && path == path[..m] + [path[m]];
      StepsUnfold(code, tails[..m], tails[m], input);
      assert steps[..m] == StepsOf(code, tails[..m], input);
      PathDistance(code, tails[..m], s, path[..m], input);
      LastStepSent(code, s, path[..m], path[m]);
      EmitLength(code, s, path[..m]);
      PathSnoc(code, steps, s, path[..m], path[m]);
      var t, u := EndState(code, s, path[..m]), UsedBy(code, m);
      var list, p, r := code.Punctures(), PosAfter(code, m), CodedBits(code, m);
      var word := StepWord(code, t, path[m]);
      StepUse(code, m);
      StepDistance(code, m, t, path[m], tails[m], input[u..]);
      var kept := Keep(list, p, r, word);
      CloseJoin(PathErr(code, steps[..m], s, path[..m]), input[..u], Emit(code, 0, 0, s, path[..m]),
        BranchErr(code, steps[m].sym, t, path[m]), input[u..][..|kept|], kept);
      assert input[..u + |kept|] == input[..u] + input[u..][..|kept|];
    }
  }

  lemma StepDistance(code: Code, m: nat, t: nat, x: Input, tail: bool, input: seq<int>)
    requires code.Valid() && t < code.States() && UsedBy(code, m + 1) - UsedBy(code, m) <= |input|
    ensures var kept := Keep(code.Punctures(), PosAfter(code, m), CodedBits(code, m), StepWord(code, t, x));
      && |kept| == UsedBy(code, m + 1) - UsedBy(code, m)
      && Close(BranchErr(code, StepAt(code, m, input, tail).sym, t, x), input[..|kept|], kept)
  {
    hide Code.Valid, PosAfter, CodedBits, UsedBy, Received, WordErr, Close, Keep, Symbol;
    StepUse(code, m);
    WordDistance(code.Punctures(), PosAfter(code, m), CodedBits(code, m), StepWord(code, t, x), input);
  }

  // ---------------------------------------------------------------- messages

  /** What is sent for a message from a start state. */
  function SentFrom(code: Code, s: nat, bits: seq<Bit>): seq<Bit>
    requires code.Valid() && s < code.States()
  {
    Emit(code, 0, 0, s, MessagePath(code, bits))
  }

  /** The error of a message is the distance of what was received from what is sent for it. */
  lemma MessageDistance(code: Code, input: seq<int>, s: nat, bits: seq<Bit>)
    requires code.Valid() && MessageUse(code) <= |input| && |bits| == code.len && s < code.States()
    ensures Close(MessageErr(code, input, s, bits), input[..MessageUse(code)], SentFrom(code, s, bits))
  {
    hide Code.Valid, UsedBy, StepsOf, PathErr, Emit, Close;
    MessageFollows(code, input, bits);
    PathDistance(code, MessageTails(code), s, MessagePath(code, bits), input);
  }

  /** The messages a decoder may answer with. */
  predicate Allowed(code: Code, bits: seq<Bit>)
    requires code.Valid()
  {
    |bits| == code.len && (code.term == Flush ==> EndState(code, 0, MessagePath(code, bits)) == 0)
  }

  /**
    A flushed or truncated code: the answer is as close to what was received as any message
    allowed, up to the rounding, and the result is its distance, rounded down for each soft bit.
   */
  lemma AnswerDistance(code: Code, input: seq<int>, bits: seq<Bit>, rv: int)
    requires code.Valid() && code.term != TailBiting && MessageUse(code) <= |input|
    requires Best(code, input, bits, rv)
    ensures Allowed(code, bits) && rv >= 0
    ensures var x := input[..MessageUse(code)];
      && |x| == |Encoded(code, bits)|
      && 512 * rv <= Distance(x, Encoded(code, bits)) <= 512 * rv + 511 * Count(x)
    ensures forall other :: Allowed(code, other) ==>
      var x := input[..MessageUse(code)];
      && |x| == |Encoded(code, other)|
      && 512 * rv <= Distance(x, Encoded(code, other))
      && Distance(x, Encoded(code, bits)) <= Distance(x, Encoded(code, other)) + 511 * Count(x)
  {
    hide Code.Valid, MessageUse, MessageErr, MessagePath, Emit, Distance, Count, Codeword, Keep;
    MessageDistance(code, input, 0, bits);
    SentIsEncoded(code, bits);
    forall other | Allowed(code, other)
      ensures var x := input[..MessageUse(code)];
        && |x| == |Encoded(code, other)|
        && 512 * rv <= Distance(x, Encoded(code, other))
        && Distance(x, Encoded(code, bits)) <= Distance(x, Encoded(code, other)) + 511 * Count(x)
    {
      MessageDistance(code, input, 0, other);
      SentIsEncoded(code, other);
    }
  }

  lemma SentIsEncoded(code: Code, bits: seq<Bit>)
    requires code.Valid() && code.term != TailBiting
    ensures 0 < code.States() && SentFrom(code, 0, bits) == Encoded(code, bits)
  {}

  // ---------------------------------------------------------------- tail biting

  /** What the first pass of tail biting leaves for each end state: the least distance of a message that ends there. */
  ghost predicate NearestInto(code: Code, x: seq<int>, first: seq<nat>)
    requires code.Valid() && |first| == code.States()
  {
    && (forall other :: |other| == code.len ==>
          && |x| == |SentFrom(code, 0, other)|
          && 512 * first[EndState(code, 0, MessagePath(code, other))] <= Distance(x, SentFrom(code, 0, other)))
    && (forall t :: 0 <= t < code.States() && first[t] < MAX_AE ==>
      exists other :: LeadsTo(code, x, first[t], t, other))
  }

  ghost predicate LeadsTo(code: Code, x: seq<int>, e: nat, t: nat, other: seq<Bit>)
    requires code.Valid()
  {
    && |other| == code.len && EndState(code, 0, MessagePath(code, other)) == t
    && Close(e, x, SentFrom(code, 0, other))
  }

  /** The second pass: a nearest message over all start states, where each costs what the first pass left it. */
  ghost predicate NearestFrom(code: Code, x: seq<int>, start: seq<nat>, bits: seq<Bit>, rv: int)
    requires code.Valid() && |start| == code.States()
  {
    && (exists s :: 0 <= s < code.States() && start[s] <= rv && Close(rv - start[s], x, SentFrom(code, s, bits)))
    && (forall s, other :: 0 <= s < code.States() && |other| == code.len ==>
          && |x| == |SentFrom(code, s, other)|
          && 512 * rv <= 512 * start[s] + Distance(x, SentFrom(code, s, other)))
  }

  /** The costs of the second pass are those the first left, less the lowest of them. */
  ghost predicate Lowered(first: seq<nat>, start: seq<nat>) {
    && |first| == |start|
    && exists low ::
         && (low in first || forall t :: 0 <= t < |first| ==> first[t] >= MAX_AE)
         && forall t :: 0 <= t < |first| ==> first[t] == start[t] + low
  }

  ghost predicate TwoPasses(code: Code, x: seq<int>, first: seq<nat>, start: seq<nat>, bits: seq<Bit>, rv: int)
    requires code.Valid()
  {
    && |first| == |start| == code.States()
    && NearestInto(code, x, first) && Lowered(first, start) && NearestFrom(code, x, start, bits, rv)
  }

  /** A tail-biting code: both passes said in terms of distances. */
  lemma TailBitingDistance(code: Code, input: seq<int>, bits: seq<Bit>, rv: int)
    requires code.Valid() && code.term == TailBiting && MessageUse(code) <= |input|
    requires Best(code, input, bits, rv)
    ensures |bits| == code.len
    ensures exists first, start :: TwoPasses(code, input[..MessageUse(code)], first, start, bits, rv)
  {
    hide Code.Valid, MessageUse, BestFrom, Optimal, NearestInto, NearestFrom, Lowered, Rebased;
    var first, start :| FirstPass(code, input, first, start) && BestFrom(code, input, start, bits, rv);
    FirstSizes(code, input, first, start);
    FirstNearest(code, input, first, start);
    SecondNearest(code, input, start, bits, rv);
    RebasedLowered(first, start);
    assert TwoPasses(code, input[..MessageUse(code)], first, start, bits, rv);
  }

  lemma FirstSizes(code: Code, input: seq<int>, first: seq<nat>, start: seq<nat>)
    requires code.Valid() && MessageUse(code) <= |input| && FirstPass(code, input, first, start)
    ensures |first| == |start| == code.States() && Rebased(first, start)
  {}

  lemma RebasedLowered(first: seq<nat>, start: seq<nat>)
    requires Rebased(first, start)
    ensures Lowered(first, start)
  {
    var low :| RebasedBy(first, start, low);
    forall t | 0 <= t < |first| ensures first[t] == start[t] + low {
      assert start[t] == first[t] - low;
    }
    if low !in first {
      forall t | 0 <= t < |first| ensures first[t] >= MAX_AE {
        assert start[t] >= 0;
      }
    }
  }

  lemma FirstNearest(code: Code, input: seq<int>, first: seq<nat>, start: seq<nat>)
    requires code.Valid() && code.term == TailBiting && MessageUse(code) <= |input|
    requires FirstPass(code, input, first, start)
    ensures |first| == code.States() && NearestInto(code, input[..MessageUse(code)], first)
  {
    hide Code.Valid, MessageUse, MessageErr, MessagePath, MessageSteps, EndState, Emit, Distance, Count, Optimal;
    var x, zero := input[..MessageUse(code)], StartErrors(code, 0);
    StatesFit(code);
    forall other | |other| == code.len
      ensures |x| == |SentFrom(code, 0, other)|
      ensures 512 * first[EndState(code, 0, MessagePath(code, other))] <= Distance(x, SentFrom(code, 0, other))
    {
      MessageDistance(code, input, 0, other);
      NotBelow(code, input, zero, first, 0, other);
    }
    forall t | 0 <= t < code.States() && first[t] < MAX_AE
      ensures exists other :: LeadsTo(code, x, first[t], t, other) {
      var s, other := AttainedBy(code, input, zero, first, t);
      assert s == 0;
      MessageDistance(code, input, 0, other);
      assert LeadsTo(code, x, first[t], t, other);
    }
  }

  lemma SecondNearest(code: Code, input: seq<int>, start: seq<nat>, bits: seq<Bit>, rv: int)
    requires code.Valid() && |bits| == code.len && |start| == code.States() && MessageUse(code) <= |input|
    requires BestFrom(code, input, start, bits, rv)
    ensures NearestFrom(code, input[..MessageUse(code)], start, bits, rv)
  {
    hide Code.Valid, MessageUse, MessageErr, MessagePath, Emit, Distance, Count;
    var x := input[..MessageUse(code)];
    var s :| 0 <= s < code.States() && rv == start[s] + MessageErr(code, input, s, bits);
    MessageDistance(code, input, s, bits);
    forall s, other | 0 <= s < code.States() && |other| == code.len
      ensures |x| == |SentFrom(code, s, other)|
      ensures 512 * rv <= 512 * start[s] + Distance(x, SentFrom(code, s, other))
    {
      MessageDistance(code, input, s, other);
    }
  }
}
