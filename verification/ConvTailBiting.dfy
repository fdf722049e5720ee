/**
  Tail biting: the decoder's first pass always starts in state 0, so even an undisturbed
  word need not come back. This says when it does, and a code with two states and one data
  bit shows that it may not.
 */
module ConvTailBiting {
  import opened Binary
  import opened Options
  import opened ConvCode
  import opened ConvTrellis
  import opened ConvEncode
  import opened ConvDecode
  import opened ConvMessage
  import opened ConvRoundTrip

  // ---------------------------------------------------------------- when an undisturbed word comes back

  /** Only message bits sent from state s give the word of message sent. */
  predicate SendsAs(code: Code, sent: seq<Bit>, s: nat, bits: seq<Bit>)
    requires code.Valid() && code.term == TailBiting && |sent| == code.len >= code.k - 1 && s < code.States()
  {
    |bits| == code.len && Emit(code, 0, 0, s, MessagePath(code, bits)) == Encoded(code, sent)
  }

  lemma SendsItself(code: Code, sent: seq<Bit>)
    requires code.Valid() && code.term == TailBiting && |sent| == code.len >= code.k - 1
    ensures SendsAs(code, sent, StartState(code, sent), sent)
  {}

  /** From any start state, a message has no error exactly when it sends the same word. */
  lemma NoErrFrom(code: Code, sent: seq<Bit>, s: nat, bits: seq<Bit>, rest: seq<int>)
    requires code.Valid() && code.term == TailBiting && |sent| == |bits| == code.len >= code.k - 1
    requires s < code.States()
    ensures var input := SoftBits(Encoded(code, sent)) + rest;
      && MessageUse(code) <= |input|
      && (MessageErr(code, input, s, bits) == 0 <==> SendsAs(code, sent, s, bits))
  {
    hide Codeword, Keep, Code.Valid, UsedBy, StepsOf, PathErr, Marks, DataPath, TailPath;
    var tails := MessageTails(code);
    MessageLengths(code);
    forall i | 0 <= i < |tails| ensures MessagePath(code, bits)[i].Tail? <==> tails[i] {
      MessageKinds(code, bits, i);
    }
    NoPathErr(code, tails, StartState(code, sent), MessagePath(code, sent), s, MessagePath(code, bits), rest);
  }

  /** The second pass charges nothing exactly for the states the first pass found best. */
  lemma FreeStart(code: Code, input: seq<int>, first: seq<nat>, start: seq<nat>, s: nat)
    requires code.Valid() && MessageUse(code) <= |input| && FirstPass(code, input, first, start) && s < code.States()
    ensures start[s] == 0 <==> forall t :: 0 <= t < code.States() ==> first[s] <= first[t]
  {
    hide MessageSteps, MessageUse, EndState, PathErr, StartErrors, Follows;
    var m :| RebasedBy(first, start, m);
    if m == MAX_AE {
      forall t | 0 <= t < code.States() ensures first[t] == MAX_AE {
        assert start[t] == first[t] - m;
      }
    }
  }

  /**
    The decoder reports no error for an undisturbed word exactly when that word can be sent
    from a state the first pass found best; its answer is then such a message.
   */
  lemma UndisturbedVerdict(code: Code, sent: seq<Bit>, rest: seq<int>, start: seq<nat>, bits: seq<Bit>, rv: int)
    requires code.Valid() && code.term == TailBiting && |sent| == |bits| == code.len >= code.k - 1
    requires |start| == code.States() && MessageUse(code) <= |SoftBits(Encoded(code, sent)) + rest|
    requires BestFrom(code, SoftBits(Encoded(code, sent)) + rest, start, bits, rv)
    ensures StartState(code, sent) < code.States() && rv <= start[StartState(code, sent)]
    ensures rv == 0 <==>
      exists s, other :: 0 <= s < code.States() && start[s] == 0 && SendsAs(code, sent, s, other)
    ensures rv == 0 ==> exists s :: 0 <= s < code.States() && start[s] == 0 && SendsAs(code, sent, s, bits)
  {
    hide Encoded, MessageUse, MessageErr, MessagePath, Code.Valid, Emit, SendsAs, StartState;
    var input := SoftBits(Encoded(code, sent)) + rest;
    SendsItself(code, sent);
    NoErrFrom(code, sent, StartState(code, sent), sent, rest);
    var s :| 0 <= s < code.States() && rv == start[s] + MessageErr(code, input, s, bits);
    NoErrFrom(code, sent, s, bits, rest);
    forall t: nat, other | t < code.States() && start[t] == 0 && SendsAs(code, sent, t, other) ensures rv == 0 {
      SendsLength(code, sent, t, other);
      NoErrFrom(code, sent, t, other, rest);
    }
  }

  lemma SendsLength(code: Code, sent: seq<Bit>, s: nat, bits: seq<Bit>)
    requires code.Valid() && code.term == TailBiting && |sent| == code.len >= code.k - 1 && s < code.States()
    requires SendsAs(code, sent, s, bits)
    ensures |bits| == code.len
  {}

  /** A word gives away both the message and the state it was sent from. */
  ghost predicate Revealing(code: Code, sent: seq<Bit>)
    requires code.Valid() && code.term == TailBiting && |sent| == code.len >= code.k - 1
  {
    forall s: nat, bits | s < code.States() && SendsAs(code, sent, s, bits) ::
      s == StartState(code, sent) && bits == sent
  }

  /**
    An undisturbed word that only one message can cause comes back without error exactly
    when the first pass, which starts in state 0, ends cheapest in the sender's start state.
   */
  lemma TailBitingRoundTrip(code: Code, sent: seq<Bit>, rest: seq<int>, first: seq<nat>, start: seq<nat>,
                            bits: seq<Bit>, rv: int)
    requires code.Valid() && code.term == TailBiting && |sent| == |bits| == code.len >= code.k - 1
    requires Revealing(code, sent) && MessageUse(code) <= |SoftBits(Encoded(code, sent)) + rest|
    requires FirstPass(code, SoftBits(Encoded(code, sent)) + rest, first, start)
    requires BestFrom(code, SoftBits(Encoded(code, sent)) + rest, start, bits, rv)
    ensures rv == 0 && bits == sent <==>
      forall t :: 0 <= t < code.States() ==> first[StartState(code, sent)] <= first[t]
  {
    hide Encoded, MessageUse, MessageErr, MessagePath, Code.Valid, Emit, SendsAs, StartState, BestFrom, Optimal,
      Rebased;
    SendsItself(code, sent);
    UndisturbedVerdict(code, sent, rest, start, bits, rv);
    FreeStart(code, SoftBits(Encoded(code, sent)) + rest, first, start, StartState(code, sent));
  }

  // ---------------------------------------------------------------- a word that does not come back

  const TWO_STATES := Code(3, 2, 1, TailBiting, [[6, 0], [7, 7]], [[0, 1], [0, 1]], None, None)

  lemma TwoStatesValid()
    ensures TWO_STATES.Valid() && TWO_STATES.Separated() && TWO_STATES.States() == 2
  {
    assert Pow2(1) == 2;
  }

  lemma Words()
    ensures Symbol(6, 3) == [true, true, false]
    ensures Symbol(0, 3) == [false, false, false]
    ensures Symbol(7, 3) == [true, true, true]
  {
    assert BitOf(6, 2) && BitOf(6, 1) && !BitOf(6, 0);
    assert !BitOf(0, 2) && !BitOf(0, 1) && !BitOf(0, 0);
    assert BitOf(7, 2) && BitOf(7, 1) && BitOf(7, 0);
  }

  lemma WordErr3(a: Bit, b: Bit, c: Bit)
    ensures WordErr([-127, -127, -127], [a, b, c])
         == (if a then 0 else 126) + (if b then 0 else 126) + (if c then 0 else 126)
  {
    hide BitErr;
    NoBitErr(true, true);
    assert BitErr(-127, false) == 126 by { FarBit(); }
    var sym, word := [-127, -127, -127], [a, b, c];
    assert sym[..2] == [-127, -127] && word[..2] == [a, b];
    assert sym[..2][..1] == [-127] && word[..2][..1] == [a];
    assert WordErr([-127], [a]) == BitErr(-127, a);
    assert WordErr(sym[..2], word[..2]) == BitErr(-127, a) + BitErr(-127, b);
  }

  lemma FarBit()
    ensures BitErr(-127, false) == 126
  {
    assert Squared(-254) == 64516;
  }

  const SENT: seq<Bit> := [true]
  const SOFT := [-127, -127, -127]

  /** The path of a message of one bit, from the state that is loaded with it. */
  lemma OneBitPath(b: Bit)
    ensures TWO_STATES.Valid() && StartState(TWO_STATES, [b]) == Index(b) && MessagePath(TWO_STATES, [b]) == [Data(b)]
  {
    hide Code.Valid, Symbol, Emit, Codeword;
    TwoStatesValid();
    assert [b][..0] == [] && LoadedState([b]) == Index(b);
    assert [b][|[b]| - (TWO_STATES.k - 1)..] == [b];
  }

  lemma EncodedOne(b: Bit)
    ensures TWO_STATES.Valid() && Encoded(TWO_STATES, [b]) == Symbol(TWO_STATES.nextOutput[Index(b)][Index(b)], 3)
  {
    hide Code.Valid, Symbol, StartState, MessagePath, LoadedState;
    TwoStatesValid();
    OneBitPath(b);
    ConvEncode.OneStep(TWO_STATES, Index(b), Data(b));
    KeepNothingPunctured(0, Symbol(TWO_STATES.nextOutput[Index(b)][Index(b)], 3));
  }

  lemma EncodedSent()
    ensures TWO_STATES.Valid() && Encoded(TWO_STATES, [true]) == [true, true, true]
    ensures Encoded(TWO_STATES, [false]) == [true, true, false]
    ensures SoftBits(Encoded(TWO_STATES, SENT)) == SOFT
  {
    hide Code.Valid, Encoded, Symbol;
    Words();
    EncodedOne(true);
    EncodedOne(false);
  }

  lemma OnlyStep()
    ensures TWO_STATES.Valid() && MessageUse(TWO_STATES) == 3
    ensures MessageSteps(TWO_STATES, SOFT) == [Step(SOFT, false)]
  {
    hide ListPos, Received;
    TwoStatesValid();
    assert MessageTails(TWO_STATES) == [false];
    AllReceived(0, SOFT);
    NothingKept([-1], 0, 0);
    NothingReceived([-1], 0, 0, SOFT);
    assert SOFT[0..] == SOFT;
    assert [false][..0] == [];
    assert CodedBits(TWO_STATES, 1) == 3 && CodedBits(TWO_STATES, 0) == 0;
  }

  /** The error of each of the four branches of the code, which all end where the bit says. */
  lemma BranchIs(s: nat, b: Bit)
    requires s < 2
    ensures TWO_STATES.Valid() && TWO_STATES.States() == 2 && TWO_STATES.Next(s, Data(b)) == Index(b)
    ensures BranchErr(TWO_STATES, SOFT, s, Data(b)) == if s == 1 then 0 else if b then 378 else 126
  {
    hide WordErr, Symbol, BitErr;
    TwoStatesValid();
    Words();
    WordErr3(true, true, false);
    WordErr3(false, false, false);
    WordErr3(true, true, true);
  }

  lemma BranchErrs(s: nat, b: Bit)
    requires s < 2
    ensures TWO_STATES.Valid() && MessageUse(TWO_STATES) <= |SOFT|
    ensures MessageErr(TWO_STATES, SOFT, s, [b]) == if s == 1 then 0 else if b then 378 else 126
    ensures EndState(TWO_STATES, s, MessagePath(TWO_STATES, [b])) == Index(b)
  {
    hide BranchErr, StepsOf, MessageSteps, MessageUse, Code.Next, Code.Valid, Code.States;
    OnlyStep();
    BranchIs(s, b);
    var code, steps := TWO_STATES, [Step(SOFT, false)];
    assert MessagePath(code, [b]) == [] + [Data(b)];
    PathSnoc(code, steps, s, [], Data(b));
    assert PathErr(code, steps[..0], s, []) == 0;
  }

  lemma OneBit(bits: seq<Bit>)
    requires |bits| == 1
    ensures bits == [true] || bits == [false]
  {
    assert bits == [bits[0]];
    if bits[0] { assert bits == [true]; } else { assert bits == [false]; }
  }

  /** The errors after the first pass over the undisturbed word. */
  lemma FirstPassErrors(first: seq<nat>, start: seq<nat>)
    requires TWO_STATES.Valid() && MessageUse(TWO_STATES) <= |SOFT| && FirstPass(TWO_STATES, SOFT, first, start)
    ensures first == [126, 378] && start == [0, 252]
  {
    hide MessageSteps, MessageUse, MessagePath, EndState, PathErr, Code.Valid;
    var code, steps := TWO_STATES, MessageSteps(TWO_STATES, SOFT);
    TwoStatesValid();
    OnlyStep();
    forall s: nat, b | s < 2
      ensures first[Index(b)] <= StartErrors(code, 0)[s] + MessageErr(code, SOFT, s, [b])
    {
      BranchErrs(s, b);
      MessageFollows(code, SOFT, [b]);
    }
    forall b: Bit ensures first[Index(b)] == if b then 378 else 126 {
      BranchErrs(0, b);
      assert first[Index(b)] <= StartErrors(code, 0)[0] + MessageErr(code, SOFT, 0, [b]);
      var s: nat, path: seq<Input> :|
        0 <= s < code.States() && Follows(steps, path) && EndState(code, s, path) == Index(b)
        && first[Index(b)] == StartErrors(code, 0)[s] + PathErr(code, steps, s, path);
      var c := path[0].bit;
      DataOnly(path, c);
      BranchErrs(s, c);
    }
    assert first[Index(false)] == 126 && first[Index(true)] == 378;
    assert first == [126, 378];
    var m :| RebasedBy(first, start, m);
    assert m == 126;
    assert start == [0, 252];
  }

  lemma DataOnly(path: seq<Input>, c: Bit)
    requires path == [Data(c)]
    ensures MessagePath(TWO_STATES, [c]) == path
  {}

  /**
    Decoding the undisturbed word of the message 1 yields the message 0, which is encoded
    to a different word.
   */
  lemma TailBitingRoundTripFails(bits: seq<Bit>, rv: int)
    requires TWO_STATES.Valid() && MessageUse(TWO_STATES) <= |SOFT|
    requires Best(TWO_STATES, SoftBits(Encoded(TWO_STATES, SENT)), bits, rv)
    ensures bits == [false] && rv == 126
    ensures Encoded(TWO_STATES, bits) != Encoded(TWO_STATES, SENT)
  {
    hide MessageSteps, MessageUse, MessagePath, EndState, PathErr, MessageErr, Encoded, Optimal, Rebased;
    EncodedSent();
    TwoStatesValid();
    var first, start :| FirstPass(TWO_STATES, SOFT, first, start) && BestFrom(TWO_STATES, SOFT, start, bits, rv);
    FirstPassErrors(first, start);
    OneBit(bits);
    BranchErrs(0, false);
    BranchErrs(0, true);
    BranchErrs(1, false);
    BranchErrs(1, true);
    assert rv <= start[0] + MessageErr(TWO_STATES, SOFT, 0, [false]);
  }
}
