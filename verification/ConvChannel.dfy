/** Encoder and decoder put together: a message is sent over a channel that disturbs nothing. */
module ConvChannel {
  import opened ConvCode
  import opened ConvTrellis
  import opened ConvEncode
  import opened ConvDecode
  import opened ConvMessage
  import opened ConvRoundTrip
  import opened ConvTailBiting

  /** No two messages have the same code word. */
  ghost predicate Injective(code: Code)
    requires code.Valid() && code.term != TailBiting
  {
    forall a, b :: |a| == |b| == code.len && Encoded(code, a) == Encoded(code, b) ==> a == b
  }

  /** The first pass over the undisturbed word ends cheapest in a state. */
  ghost predicate Favours(code: Code, sent: seq<Bit>, s: nat)
    requires code.Valid() && code.term == TailBiting && |sent| == code.len >= code.k - 1 && s < code.States()
  {
    MessageUse(code) <= |SoftBits(Encoded(code, sent))|
    && exists first, start ::
         FirstPass(code, SoftBits(Encoded(code, sent)), first, start)
         && forall t :: 0 <= t < code.States() ==> first[s] <= first[t]
  }

  ghost predicate FirstPassFavours(code: Code, sent: seq<Bit>)
    requires code.Valid() && code.term == TailBiting && |sent| == code.len >= code.k - 1
  {
    StartState(code, sent) < code.States() && Favours(code, sent, StartState(code, sent))
  }

  /** A message sent from a favoured state that causes the word of the message sent. */
  ghost predicate Causes(code: Code, sent: seq<Bit>, s: nat, other: seq<Bit>)
    requires code.Valid() && code.term == TailBiting && |sent| == code.len >= code.k - 1 && s < code.States()
  {
    Favours(code, sent, s) && SendsAs(code, sent, s, other)
  }

  ghost predicate SomeCause(code: Code, sent: seq<Bit>)
    requires code.Valid() && code.term == TailBiting && |sent| == code.len >= code.k - 1
  {
    exists s, other :: 0 <= s < code.States() && Causes(code, sent, s, other)
  }

  /** With 256 states: all of them end in the last one. */
  ghost predicate CausesEndInLast(code: Code, sent: seq<Bit>)
    requires code.Valid() && code.term == TailBiting && |sent| == code.len >= code.k - 1
  {
    && code.States() == 256
    && forall s, other :: 0 <= s < 256 && Causes(code, sent, s, other) ==>
         EndState(code, s, MessagePath(code, other)) == 255
  }

  /** With 256 states, the decoder takes the last one for none. */
  predicate EndsInLast(code: Code, sent: seq<Bit>)
    requires code.Valid() && code.term == TailBiting && |sent| == code.len >= code.k - 1
  {
    code.States() == 256 && EndState(code, StartState(code, sent), MessagePath(code, sent)) == 255
  }

  lemma WordLength(code: Code, sent: seq<Bit>)
    requires code.Valid() && |sent| == code.len && (code.term == TailBiting ==> |sent| >= code.k - 1)
    ensures |Encoded(code, sent)| <= code.n * (code.len + code.k)
  {
    hide Codeword, Code.Valid, ListPos, Keep, StartState, EndState;
    var path, s := MessagePath(code, sent), StartState(code, sent);
    PathLength(code, sent);
    CodewordLength(code, s, path);
    MulAtMost(|path|, code.len + code.k, code.n);
  }

  lemma PathLength(code: Code, sent: seq<Bit>)
    requires code.Valid() && |sent| == code.len
    ensures |MessagePath(code, sent)| <= code.len + code.k
  {}

  /**
    Encoding, undisturbed soft bits, decoding. A flushed message comes back with error 0 as a
    message with the same word, and so does a truncated one unless its word can only be caused by
    messages that end in the last of 256 states; it is the message itself if the encoder is injective.
    A tail-biting word is answered with error 0 exactly if the first pass favours some state that can
    send it, unless all messages sent so end in the last of 256 states, and then by such a message; a
    message that is the only cause of its word comes back exactly if the first pass favours its start
    state and it does not end in the last of 256 states.
   */
  method Transmit(code: Code, sent: seq<Bit>) returns (bits: seq<Bit>, rv: int)
    requires code.Valid() && code.Separated() && |sent| == code.len
    requires code.term == TailBiting ==> code.len >= code.k - 1
    requires code.term == Flush ==> EndsInZero(code, sent)
    ensures |bits| == code.len
    ensures code.term == Flush ==> rv == 0
    ensures code.term == Truncation ==>
      && MessageUse(code) <= |SoftBits(Encoded(code, sent))|
      && (rv < 0 <==> OnlyLast(code, SoftBits(Encoded(code, sent)), StartErrors(code, 0)))
    ensures code.term != TailBiting && rv >= 0 ==>
      rv == 0 && Encoded(code, bits) == Encoded(code, sent) && (Injective(code) ==> bits == sent)
    ensures code.term == TailBiting ==>
      && (rv == 0 <==> SomeCause(code, sent) && !CausesEndInLast(code, sent))
      && (rv == 0 ==> exists s :: 0 <= s < code.States() && Causes(code, sent, s, bits))
    ensures code.term == TailBiting && Revealing(code, sent) ==>
      (rv == 0 && bits == sent <==> FirstPassFavours(code, sent) && !EndsInLast(code, sent))
  {
    hide Encoded, MessageUse, MessageErr, MessagePath, Code.Valid, Code.Separated, Emit, SendsAs, StartState, BestFrom,
      Optimal, Rebased, FirstPass, Missed, Best, FirstPassFavours, EndsInLast, Revealing, Injective, SomeCause,
      CausesEndInLast, Causes;
    WordLength(code, sent);
    var word := new Bit[code.n * (code.len + code.k)];
    var l := Encode(code, sent, word);
    assert word[..l] == Encoded(code, sent);
    var soft := SoftBits(word[..l]);
    var output := new Bit[code.len];
    assert soft + [] == soft;
    if code.term == TailBiting {
      NoErrFrom(code, sent, StartState(code, sent), sent, []);
    } else {
      NoMessageErr(code, sent, sent, []);
    }
    if code.term == Flush {
      UndisturbedDecodable(code, sent, []);
    }
    rv := Decode(code, soft, output);
    bits := output[..];
    assert output[..code.len] == bits;
    if code.term == TailBiting {
      TailBitingAnswer(code, sent, bits, rv);
      if Revealing(code, sent) {
        TailBitingDecoded(code, sent, bits, rv);
      }
    } else {
      if rv >= 0 {
        UndisturbedAnswer(code, sent, bits, rv);
      }
      if code.term == Truncation {
        NotHopeless(code, sent);
      }
    }
  }

  lemma UndisturbedAnswer(code: Code, sent: seq<Bit>, bits: seq<Bit>, rv: int)
    requires code.Valid() && code.term != TailBiting && |sent| == code.len
    requires code.term == Flush ==> EndsInZero(code, sent)
    requires MessageUse(code) <= |SoftBits(Encoded(code, sent))|
    requires Best(code, SoftBits(Encoded(code, sent)), bits, rv)
    ensures rv == 0 && |bits| == code.len && Encoded(code, bits) == Encoded(code, sent)
    ensures Injective(code) ==> bits == sent
  {
    hide Encoded, MessageUse, MessageErr, MessagePath, Code.Valid, Best;
    assert SoftBits(Encoded(code, sent)) + [] == SoftBits(Encoded(code, sent));
    NoiselessRoundTrip(code, sent, [], bits, rv);
  }

  /** On an undisturbed word the decoder only gives up where it takes the last state for none. */
  lemma NotHopeless(code: Code, sent: seq<Bit>)
    requires code.Valid() && code.term == Truncation && |sent| == code.len
    ensures MessageUse(code) <= |SoftBits(Encoded(code, sent))|
    ensures Missed(code, SoftBits(Encoded(code, sent)), StartErrors(code, 0))
       <==> OnlyLast(code, SoftBits(Encoded(code, sent)), StartErrors(code, 0))
  {
    hide Encoded, MessageUse, MessageErr, MessagePath, Code.Valid, OnlyLast;
    var input := SoftBits(Encoded(code, sent));
    assert input + [] == input;
    NoMessageErr(code, sent, sent, []);
    StatesFit(code);
    assert StartErrors(code, 0)[0] + MessageErr(code, input, 0, sent) == 0;
  }

  /** What the decoder answers to a tail-biting word that only one message can cause. */
  lemma TailBitingDecoded(code: Code, sent: seq<Bit>, bits: seq<Bit>, rv: int)
    requires code.Valid() && code.term == TailBiting && |sent| == |bits| == code.len >= code.k - 1
    requires Revealing(code, sent) && MessageUse(code) <= |SoftBits(Encoded(code, sent))|
    requires rv >= 0 ==> Best(code, SoftBits(Encoded(code, sent)), bits, rv)
    requires exists first, start ::
      FirstPass(code, SoftBits(Encoded(code, sent)), first, start)
      && (rv < 0 <==> Missed(code, SoftBits(Encoded(code, sent)), start))
    ensures rv == 0 && bits == sent <==> FirstPassFavours(code, sent) && !EndsInLast(code, sent)
  {
    hide Encoded, MessageUse, MessageErr, MessagePath, Code.Valid, Emit, SendsAs, StartState, Missed, Best, Favours,
      FirstPass;
    TailBitingAnswer(code, sent, bits, rv);
    StartInRange(code, sent);
    SendsItself(code, sent);
    if FirstPassFavours(code, sent) {
      assert Causes(code, sent, StartState(code, sent), sent);
    }
  }

  lemma StartInRange(code: Code, sent: seq<Bit>)
    requires code.Valid() && code.term == TailBiting && |sent| == code.len >= code.k - 1
    ensures StartState(code, sent) < code.States()
  {}

  lemma FirstPassSizes(code: Code, input: seq<int>, first: seq<nat>, start: seq<nat>)
    requires code.Valid() && MessageUse(code) <= |input| && FirstPass(code, input, first, start)
    ensures |first| == |start| == code.States()
  {}

  /** The first pass has one result, so it favours exactly the states the second charges nothing. */
  lemma Favoured(code: Code, sent: seq<Bit>, first: seq<nat>, start: seq<nat>, s: nat)
    requires code.Valid() && code.term == TailBiting && |sent| == code.len >= code.k - 1 && s < code.States()
    requires MessageUse(code) <= |SoftBits(Encoded(code, sent))|
    requires FirstPass(code, SoftBits(Encoded(code, sent)), first, start) && |first| == |start| == code.States()
    ensures Favours(code, sent, s) <==> start[s] == 0
    ensures Favours(code, sent, s) <==> forall t :: 0 <= t < code.States() ==> first[s] <= first[t]
  {
    hide Encoded, MessageUse, MessagePath, Code.Valid, Emit, StartState, Optimal, Rebased;
    var input := SoftBits(Encoded(code, sent));
    FreeStart(code, input, first, start, s);
    if Favours(code, sent, s) {
      var first', start' :| FirstPass(code, input, first', start')
        && forall t :: 0 <= t < code.States() ==> first'[s] <= first'[t];
      FirstPassOne(code, input, first, start, first', start');
    }
  }

  /** What the decoder answers to any undisturbed tail-biting word. */
  lemma TailBitingAnswer(code: Code, sent: seq<Bit>, bits: seq<Bit>, rv: int)
    requires code.Valid() && code.term == TailBiting && |sent| == |bits| == code.len >= code.k - 1
    requires MessageUse(code) <= |SoftBits(Encoded(code, sent))|
    requires rv >= 0 ==> Best(code, SoftBits(Encoded(code, sent)), bits, rv)
    requires exists first, start ::
      FirstPass(code, SoftBits(Encoded(code, sent)), first, start)
      && (rv < 0 <==> Missed(code, SoftBits(Encoded(code, sent)), start))
    ensures rv == 0 <==> SomeCause(code, sent) && !CausesEndInLast(code, sent)
    ensures rv == 0 ==> exists s :: 0 <= s < code.States() && Causes(code, sent, s, bits)
  {
    hide Encoded, MessageUse, MessageErr, MessagePath, Code.Valid, Emit, SendsAs, StartState, BestFrom, Optimal,
      Rebased, Missed, Favours, CausesEndInLast;
    var input := SoftBits(Encoded(code, sent));
    assert input + [] == input;
    var first, start :| FirstPass(code, input, first, start) && (rv < 0 <==> Missed(code, input, start));
    FirstPassSizes(code, input, first, start);
    forall s: nat | s < code.States() ensures Favours(code, sent, s) <==> start[s] == 0 {
      Favoured(code, sent, first, start, s);
    }
    if SomeCause(code, sent) {
      MissedIfLast(code, sent, start);
    }
    if rv >= 0 {
      var first', start' :| FirstPass(code, input, first', start') && BestFrom(code, input, start', bits, rv);
      FirstPassOne(code, input, first, start, first', start');
      UndisturbedVerdict(code, sent, [], start, bits, rv);
      if rv == 0 {
        var s :| 0 <= s < code.States() && start[s] == 0 && SendsAs(code, sent, s, bits);
        assert Causes(code, sent, s, bits);
      }
      if SomeCause(code, sent) {
        var s, other :| 0 <= s < code.States() && Causes(code, sent, s, other);
        assert start[s] == 0 && SendsAs(code, sent, s, other);
      }
    }
  }

  /** With some cause the decoder only gives up if all of them end in the last of 256 states. */
  lemma MissedIfLast(code: Code, sent: seq<Bit>, start: seq<nat>)
    requires code.Valid() && code.term == TailBiting && |sent| == code.len >= code.k - 1 && |start| == code.States()
    requires MessageUse(code) <= |SoftBits(Encoded(code, sent))|
    requires forall s: nat :: s < code.States() ==> (Favours(code, sent, s) <==> start[s] == 0)
    requires SomeCause(code, sent)
    ensures Missed(code, SoftBits(Encoded(code, sent)), start) <==> CausesEndInLast(code, sent)
  {
    hide Encoded, MessageUse, MessageErr, MessagePath, Code.Valid, Emit, SendsAs, StartState, Favours;
    var input := SoftBits(Encoded(code, sent));
    assert input + [] == input;
    forall s: nat, other | s < code.States() && |other| == code.len
      ensures start[s] + MessageErr(code, input, s, other) == 0 <==> Causes(code, sent, s, other)
    {
      NoErrFrom(code, sent, s, other, []);
    }
    forall s: nat, other | s < code.States() && SendsAs(code, sent, s, other) ensures |other| == code.len {
      SendsLength(code, sent, s, other);
    }
    var s, other :| 0 <= s < code.States() && Causes(code, sent, s, other);
    assert start[s] + MessageErr(code, input, s, other) == 0;
    if CausesEndInLast(code, sent) {
      assert BestIsLast(code, input, start, s, other);
    }
  }
}
