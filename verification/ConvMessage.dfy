/**
  Decoding whole messages: the decoder returns a message of least error, and undoes the
  encoder when nothing was disturbed.
 */
module ConvMessage {
  import opened Options
  import opened ConvCode
  import opened ConvTrellis
  import opened ConvEncode
  import opened ConvDecode

  /** Which steps of a message are termination steps. */
  function MessageTails(code: Code): (tails: seq<bool>)
  {
    Marks(code.len, false) + Marks(if code.term == Flush && code.k > 0 then code.k - 1 else 0, true)
  }

  /** The number of soft bits of a message. */
  function MessageUse(code: Code): (u: nat)
    requires code.Valid()
  {
    UsedBy(code, |MessageTails(code)|)
  }

  function MessageSteps(code: Code, input: seq<int>): (steps: seq<Step>)
    requires code.Valid() && MessageUse(code) <= |input|
    ensures WellFormed(code, steps)
  {
    StepsOf(code, MessageTails(code), input)
  }

  lemma MessageFollows(code: Code, input: seq<int>, bits: seq<Bit>)
    requires code.Valid() && MessageUse(code) <= |input| && |bits| == code.len
    ensures Follows(MessageSteps(code, input), MessagePath(code, bits))
  {
    hide UsedBy, StepsOf, Code.Valid;
    var path, tails := MessagePath(code, bits), MessageTails(code);
    forall i | 0 <= i < |path| ensures path[i].Tail? <==> MessageSteps(code, input)[i].tail {
      StepTail(code, tails, input, i);
    }
  }

  /** The error of a message whose encoding starts in state s. */
  function MessageErr(code: Code, input: seq<int>, s: nat, bits: seq<Bit>): (e: nat)
    requires code.Valid() && MessageUse(code) <= |input| && |bits| == code.len && s < code.States()
  {
    MessageFollows(code, input, bits);
    PathErr(code, MessageSteps(code, input), s, MessagePath(code, bits))
  }

  /** Does the encoding of a message from state 0 end in state 0? */
  predicate EndsInZero(code: Code, bits: seq<Bit>)
    requires code.Valid()
  {
    EndState(code, 0, MessagePath(code, bits)) == 0
  }

  // ---------------------------------------------------------------- what decoding promises

  /** For a flushed code: bits is a message of least error among those that end in state 0. */
  ghost predicate BestFlushed(code: Code, input: seq<int>, bits: seq<Bit>, rv: int)
    requires code.Valid() && MessageUse(code) <= |input|
  {
    && |bits| == code.len && EndsInZero(code, bits) && rv == MessageErr(code, input, 0, bits)
    && forall other :: |other| == code.len && EndsInZero(code, other) ==> rv <= MessageErr(code, input, 0, other)
  }

  /** For a truncated code: a message of least error whatever state it ends in. */
  ghost predicate BestTruncated(code: Code, input: seq<int>, bits: seq<Bit>, rv: int)
    requires code.Valid() && MessageUse(code) <= |input|
  {
    && |bits| == code.len && rv == MessageErr(code, input, 0, bits)
    && forall other :: |other| == code.len ==> rv <= MessageErr(code, input, 0, other)
  }

  /**
    For a tail-biting code there are two passes. The first starts in state 0 and leaves the
    errors first; the second starts in state s at the cost of first[s] above their minimum.
   */
  ghost predicate BestTailBiting(code: Code, input: seq<int>, bits: seq<Bit>, rv: int)
    requires code.Valid() && MessageUse(code) <= |input| && code.term == TailBiting
  {
    |bits| == code.len && exists first, start ::
      FirstPass(code, input, first, start) && BestFrom(code, input, start, bits, rv)
  }

  ghost predicate FirstPass(code: Code, input: seq<int>, first: seq<nat>, start: seq<nat>)
    requires code.Valid() && MessageUse(code) <= |input|
  {
    && |first| == |start| == code.States()
    && Optimal(code, MessageSteps(code, input), StartErrors(code, 0), first)
    && Rebased(first, start)
  }

  ghost predicate BestFrom(code: Code, input: seq<int>, start: seq<nat>, bits: seq<Bit>, rv: int)
    requires code.Valid() && MessageUse(code) <= |input| && |bits| == code.len && |start| == code.States()
  {
    && (exists s :: 0 <= s < code.States() && rv == start[s] + MessageErr(code, input, s, bits))
    && (forall s, other :: 0 <= s < code.States() && |other| == code.len ==>
          rv <= start[s] + MessageErr(code, input, s, other))
  }

  ghost predicate Best(code: Code, input: seq<int>, bits: seq<Bit>, rv: int)
    requires code.Valid() && MessageUse(code) <= |input|
  {
    match code.term
    case Flush => BestFlushed(code, input, bits, rv)
    case Truncation => BestTruncated(code, input, bits, rv)
    case TailBiting => BestTailBiting(code, input, bits, rv)
  }

  /** Some message that ends in state 0 has an error below saturation. */
  ghost predicate Decodable(code: Code, input: seq<int>)
    requires code.Valid() && MessageUse(code) <= |input|
  {
    exists bits :: |bits| == code.len && EndsInZero(code, bits) && MessageErr(code, input, 0, bits) < MAX_AE
  }

  // ---------------------------------------------------------------- from tables to messages

  /** With a fixed start state, a survivor below saturation starts there. */
  lemma BestOfRun(code: Code, input: seq<int>, aes: seq<seq<nat>>, rows: seq<seq<nat>>, end: nat, bits: seq<Bit>)
    requires code.Valid() && code.Separated() && MessageUse(code) <= |input| && |bits| == code.len
    requires Alive(code, MessageSteps(code, input), aes, rows, end)
    requires Survivor(code, MessageSteps(code, input), aes, rows, end) == MessagePath(code, bits)
    ensures |aes[0]| == |aes[|aes| - 1]| == code.States() && end < code.States()
    ensures exists s ::
      0 <= s < code.States() && aes[|aes| - 1][end] == aes[0][s] + MessageErr(code, input, s, bits)
      && EndState(code, s, MessagePath(code, bits)) == end
  {
    hide Survivors, StepsOf, UsedBy, Code.Valid, Code.Separated, Survivor, Run;
    var steps := MessageSteps(code, input);
    MessageFollows(code, input, bits);
    SurvivorCost(code, steps, aes, rows, end);
    RunLengths(code, steps, aes, rows);
  }

  lemma NoMessageCheaper(code: Code, input: seq<int>, aes: seq<seq<nat>>, rows: seq<seq<nat>>, s: nat, bits: seq<Bit>)
    requires code.Valid() && MessageUse(code) <= |input| && |bits| == code.len && s < code.States()
    requires Run(code, MessageSteps(code, input), aes, rows)
    ensures |aes[0]| == |aes[|aes| - 1]| == code.States()
    ensures aes[|aes| - 1][EndState(code, s, MessagePath(code, bits))] <= aes[0][s] + MessageErr(code, input, s, bits)
  {
    hide Survivors, StepsOf, UsedBy, Code.Valid, Run;
    MessageFollows(code, input, bits);
    RunLengths(code, MessageSteps(code, input), aes, rows);
    NoPathCheaper(code, MessageSteps(code, input), aes, rows, s, MessagePath(code, bits));
  }

  /** What a finished traceback says, in terms of messages. */
  lemma BestOfFlushed(code: Code, input: seq<int>, aes: seq<seq<nat>>, rows: seq<seq<nat>>, bits: seq<Bit>)
    requires code.Valid() && code.Separated() && MessageUse(code) <= |input| && |bits| == code.len
    requires Alive(code, MessageSteps(code, input), aes, rows, 0) && aes[0] == StartErrors(code, 0)
    requires Survivor(code, MessageSteps(code, input), aes, rows, 0) == MessagePath(code, bits)
    ensures |aes[|aes| - 1]| > 0 && BestFlushed(code, input, bits, aes[|aes| - 1][0])
  {
    hide MessageSteps, MessageErr, MessageUse, MessagePath, Code.Valid, Code.Separated, Survivor, Run;
    RunLengths(code, MessageSteps(code, input), aes, rows);
    BestOfRun(code, input, aes, rows, 0, bits);
    forall other | |other| == code.len && EndsInZero(code, other)
      ensures aes[|aes| - 1][0] <= MessageErr(code, input, 0, other)
    {
      NoMessageCheaper(code, input, aes, rows, 0, other);
    }
  }

  lemma BestOfAnyEnd(code: Code, input: seq<int>, aes: seq<seq<nat>>, rows: seq<seq<nat>>, last: seq<nat>,
                     end: nat, bits: seq<Bit>)
    requires code.Valid() && code.Separated() && MessageUse(code) <= |input| && |bits| == code.len
    requires Alive(code, MessageSteps(code, input), aes, rows, end) && last == aes[|aes| - 1]
    requires end < |last| && forall s :: 0 <= s < |last| ==> last[end] <= last[s]
    requires Survivor(code, MessageSteps(code, input), aes, rows, end) == MessagePath(code, bits)
    ensures |aes[0]| == code.States() && BestFrom(code, input, aes[0], bits, last[end])
  {
    hide MessageSteps, MessageErr, MessageUse, MessagePath, Code.Valid, Code.Separated, Survivor, Run;
    RunLengths(code, MessageSteps(code, input), aes, rows);
    BestOfRun(code, input, aes, rows, end, bits);
    forall s, other | 0 <= s < code.States() && |other| == code.len
      ensures last[end] <= aes[0][s] + MessageErr(code, input, s, other)
    {
      NoMessageCheaper(code, input, aes, rows, s, other);
    }
  }

  /** With the start state fixed to 0, the least error over all start states is that of state 0. */
  lemma BestFromZero(code: Code, input: seq<int>, bits: seq<Bit>, rv: nat)
    requires code.Valid() && MessageUse(code) <= |input| && |bits| == code.len && rv < MAX_AE
    requires BestFrom(code, input, StartErrors(code, 0), bits, rv)
    ensures BestTruncated(code, input, bits, rv)
  {
    hide MessageErr, MessageUse, Code.Valid;
    var start := StartErrors(code, 0);
    assert start[0] == 0 && forall s :: 1 <= s < code.States() ==> start[s] == MAX_AE;
    forall other | |other| == code.len ensures rv <= MessageErr(code, input, 0, other) {
      assert rv <= start[0] + MessageErr(code, input, 0, other);
    }
  }

  /** Every message is saturated, whatever state it starts in. */
  ghost predicate Hopeless(code: Code, input: seq<int>, start: seq<nat>)
    requires code.Valid() && MessageUse(code) <= |input| && |start| == code.States()
  {
    forall s, bits :: 0 <= s < code.States() && |bits| == code.len ==>
      start[s] + MessageErr(code, input, s, bits) >= MAX_AE
  }

  /** With 256 states: there are messages below saturation, but the best of them all end in the last state. */
  ghost predicate OnlyLast(code: Code, input: seq<int>, start: seq<nat>)
    requires code.Valid() && MessageUse(code) <= |input| && |start| == code.States()
  {
    && code.States() == 256
    && exists s, bits :: 0 <= s < 256 && |bits| == code.len && BestIsLast(code, input, start, s, bits)
  }

  ghost predicate BestIsLast(code: Code, input: seq<int>, start: seq<nat>, s: nat, bits: seq<Bit>)
    requires code.Valid() && MessageUse(code) <= |input| && |start| == code.States() == 256 && s < 256
      && |bits| == code.len
  {
    var e := start[s] + MessageErr(code, input, s, bits);
    && e < MAX_AE && EndState(code, s, MessagePath(code, bits)) == 255
    && forall s', other ::
         0 <= s' < 256 && |other| == code.len && EndState(code, s', MessagePath(code, other)) != 255 ==>
           e < start[s'] + MessageErr(code, input, s', other)
  }

  /** The decoder gives up: for want of a message, or because it takes the last state for none. */
  ghost predicate Missed(code: Code, input: seq<int>, start: seq<nat>)
    requires code.Valid() && MessageUse(code) <= |input| && |start| == code.States()
  {
    Hopeless(code, input, start) || OnlyLast(code, input, start)
  }

  /** Without termination steps every path is that of a message. */
  lemma PathIsMessage(code: Code, input: seq<int>, path: seq<Input>) returns (bits: seq<Bit>)
    requires code.Valid() && code.term != Flush && MessageUse(code) <= |input|
      && Follows(MessageSteps(code, input), path)
    ensures |bits| == code.len && MessagePath(code, bits) == path
  {
    hide UsedBy, StepsOf, Code.Valid;
    MessageLengths(code);
    forall i | 0 <= i < |path| ensures path[i].Data? {
      StepTail(code, MessageTails(code), input, i);
    }
    bits := seq(|path|, i requires 0 <= i < |path| => path[i].Data? && path[i].bit);
  }

  /** The error of a state that is not saturated is that of some message into it. */
  lemma AttainedBy(code: Code, input: seq<int>, start: seq<nat>, last: seq<nat>, t: nat)
    returns (s: nat, bits: seq<Bit>)
    requires code.Valid() && code.term != Flush && MessageUse(code) <= |input| && |start| == |last| == code.States()
    requires Optimal(code, MessageSteps(code, input), start, last) && t < code.States() && last[t] < MAX_AE
    ensures s < code.States() && |bits| == code.len && EndState(code, s, MessagePath(code, bits)) == t
    ensures last[t] == start[s] + MessageErr(code, input, s, bits)
  {
    hide UsedBy, StepsOf, Code.Valid, MessageSteps, Follows, EndState, MessageUse, MessagePath, PathErr;
    var path;
    s, path :|
      0 <= s < code.States() && Follows(MessageSteps(code, input), path) && EndState(code, s, path) == t
      && last[t] == start[s] + PathErr(code, MessageSteps(code, input), s, path);
    bits := PathIsMessage(code, input, path);
  }

  lemma NotBelow(code: Code, input: seq<int>, start: seq<nat>, last: seq<nat>, s: nat, bits: seq<Bit>)
    requires code.Valid() && MessageUse(code) <= |input| && |start| == |last| == code.States()
    requires Optimal(code, MessageSteps(code, input), start, last) && s < code.States() && |bits| == code.len
    ensures last[EndState(code, s, MessagePath(code, bits))] <= start[s] + MessageErr(code, input, s, bits)
  {
    MessageFollows(code, input, bits);
  }

  /** The decoder's search finds no state exactly in those two cases. */
  lemma LostIsMissed(code: Code, input: seq<int>, start: seq<nat>, last: seq<nat>)
    requires code.Valid() && code.term != Flush && MessageUse(code) <= |input| && |start| == |last| == code.States()
    requires Optimal(code, MessageSteps(code, input), start, last)
    ensures Lost(last) <==> Missed(code, input, start)
  {
    hide UsedBy, StepsOf, Code.Valid, MessageSteps, Follows, EndState, MessageUse, MessagePath, PathErr, MessageErr,
      Optimal;
    if forall t :: 0 <= t < |last| ==> last[t] >= MAX_AE {
      forall s, bits | 0 <= s < code.States() && |bits| == code.len
        ensures start[s] + MessageErr(code, input, s, bits) >= MAX_AE
      {
        NotBelow(code, input, start, last, s, bits);
      }
    } else if Lost(last) {
      var s, bits := AttainedBy(code, input, start, last, 255);
      forall s', other | 0 <= s' < 256 && |other| == code.len && EndState(code, s', MessagePath(code, other)) != 255
        ensures last[255] < start[s'] + MessageErr(code, input, s', other)
      {
        NotBelow(code, input, start, last, s', other);
      }
      assert BestIsLast(code, input, start, s, bits);
    }
    if Hopeless(code, input, start) {
      forall t | 0 <= t < |last| ensures last[t] >= MAX_AE {
        if last[t] < MAX_AE { var s, bits := AttainedBy(code, input, start, last, t); }
      }
    } else if OnlyLast(code, input, start) {
      var s, bits :| 0 <= s < 256 && |bits| == code.len && BestIsLast(code, input, start, s, bits);
      NotBelow(code, input, start, last, s, bits);
      forall t | 0 <= t < 255 ensures last[255] < last[t] {
        if last[t] < MAX_AE { var s', other := AttainedBy(code, input, start, last, t); }
      }
    }
  }

  lemma DecodableAlive(code: Code, input: seq<int>, aes: seq<seq<nat>>, rows: seq<seq<nat>>)
    requires code.Valid() && MessageUse(code) <= |input| && Decodable(code, input)
    requires Run(code, MessageSteps(code, input), aes, rows) && aes[0] == StartErrors(code, 0)
    ensures Alive(code, MessageSteps(code, input), aes, rows, 0)
  {
    hide MessageSteps, MessageErr, MessageUse, MessagePath, Code.Valid, Run;
    RunLengths(code, MessageSteps(code, input), aes, rows);
    var bits :| |bits| == code.len && EndsInZero(code, bits) && MessageErr(code, input, 0, bits) < MAX_AE;
    NoMessageCheaper(code, input, aes, rows, 0, bits);
  }

  /** The decoder's verdict, for each way a code can be terminated. */
  lemma Verdict(code: Code, input: seq<int>, aes: seq<seq<nat>>, rows: seq<seq<nat>>, last: seq<nat>,
                end: nat, bits: seq<Bit>, first: seq<nat>)
    requires code.Valid() && code.Separated() && MessageUse(code) <= |input| && |bits| == code.len
    requires Alive(code, MessageSteps(code, input), aes, rows, end) && last == aes[|aes| - 1]
    requires Survivor(code, MessageSteps(code, input), aes, rows, end) == MessagePath(code, bits)
    requires end < |last| && (code.term == Flush || forall s :: 0 <= s < |last| ==> last[end] <= last[s])
    requires code.term == Flush ==> end == 0
    requires code.term != TailBiting ==> aes[0] == StartErrors(code, 0)
    requires code.term == TailBiting ==> FirstPass(code, input, first, aes[0])
    ensures Best(code, input, bits, last[end])
  {
    hide MessageSteps, MessageErr, MessageUse, MessagePath, Code.Valid, Code.Separated, Survivor, Run,
      BestFlushed, BestFrom, BestTruncated, FirstPass, StartErrors;
    RunLengths(code, MessageSteps(code, input), aes, rows);
    if code.term == Flush {
      BestOfFlushed(code, input, aes, rows, bits);
    } else {
      BestOfAnyEnd(code, input, aes, rows, last, end, bits);
      if code.term == Truncation {
        BestFromZero(code, input, bits, last[end]);
      }
    }
  }

  // ---------------------------------------------------------------- decoding a message

  lemma StepsOfMessage(code: Code, input: seq<int>)
    requires code.Valid() && MessageUse(code) <= |input|
    ensures StepsOf(code, MessageTails(code), input[..MessageUse(code)]) == MessageSteps(code, input)
  {
    hide StepsOf, UsedBy, Code.Valid, MessageTails;
    var u := MessageUse(code);
    StepsPrefix(code, MessageTails(code), input[..u], input[u..]);
    assert input == input[..u] + input[u..];
  }

  /** One pass over the input: the data steps and, for a flushed code, the termination steps. */
  method Pass(decoder: Decoder, input: seq<int>)
    requires decoder.Valid() && decoder.tails == [] && decoder.received == [] && |decoder.aes| > 0
    requires decoder.len == decoder.code.len && MessageUse(decoder.code) <= |input|
    modifies decoder, decoder.ae, decoder.aeNext, decoder.stateHistory
    ensures decoder.Valid() && decoder.aes[0] == old(decoder.aes[0])
    ensures decoder.tails == MessageTails(decoder.code)
    ensures decoder.received == input[..MessageUse(decoder.code)]
  {
    hide UsedBy, Marks, Tables, PosAfter, Flat, Code.Valid;
    var code := decoder.code;
    NoUse(code);
    UseGrows(code, code.len, |MessageTails(code)|);
    var l := decoder.DoSteps(input, 0, code.len, false);
    if code.term == Flush {
      var l' := decoder.DoSteps(input, l, code.k - 1, true);
      assert input[0..l] + input[l..l + l'] == input[..l + l'];
    }
  }

  lemma NoUse(code: Code)
    requires code.Valid()
    ensures code.k >= 1 && UsedBy(code, 0) == 0 && Marks(0, true) == []
  {}

  /** Decodes a message; the result is its error, or -1 exactly when the decoder gives up. */
  method Decode(code: Code, input: seq<int>, output: array<Bit>) returns (rv: int)
    requires code.Valid() && code.Separated()
    requires code.len <= output.Length && MessageUse(code) <= |input|
    requires code.term == Flush ==> Decodable(code, input)
    modifies output
    ensures rv < 0 ==> rv == -1 && code.term != Flush && output[..] == old(output[..])
    ensures code.term == Truncation ==> (rv < 0 <==> Missed(code, input, StartErrors(code, 0)))
    ensures code.term == TailBiting ==>
      exists first, start :: FirstPass(code, input, first, start) && (rv < 0 <==> Missed(code, input, start))
    ensures rv >= 0 ==>
      Best(code, input, output[..code.len], rv) && output[code.len..] == old(output[code.len..])
  {
    hide MessageUse, MessageTails, Tables, Flat, PosAfter, UsedBy, Run, StepsOf, Code.Valid, Code.Separated,
      Survivor, Best, FirstPass, Missed, Lost, MessagePath, MessageSteps, StartErrors, Optimal, Rebased, DataPath,
      TailPath;
    var decoder := new Decoder(code, 0, 0);
    ghost var first := [];
    if code.term == TailBiting {
      Pass(decoder, input);
      first := FirstErrors(decoder, input);
      ghost var start0 := decoder.aes[0];
      decoder.Rewind();
      FirstPassDone(code, input, first, decoder.aes[0]);
    }
    Pass(decoder, input);
    MessageLengths(code);
    FinishedRun(decoder, input);
    if code.term == Flush {
      DecodableAlive(code, input, decoder.aes, decoder.rows);
    }
    ghost var end;
    rv, end := decoder.GetOutput(output, code.term == Flush, if code.term == Flush then 0 else -1);
    if rv >= 0 {
      MessagePathIs(code, output[..code.len]);
      Verdict(code, input, decoder.aes, decoder.rows, decoder.ae[..], end, output[..code.len], first);
    }
    if code.term != Flush {
      RunOptimal(code, MessageSteps(code, input), decoder.aes, decoder.rows);
      LostIsMissed(code, input, decoder.aes[0], decoder.ae[..]);
    }
  }

  lemma FirstPassDone(code: Code, input: seq<int>, first: seq<nat>, start: seq<nat>)
    requires code.Valid() && MessageUse(code) <= |input| && |first| == |start| == code.States()
    requires Optimal(code, MessageSteps(code, input), StartErrors(code, 0), first) && Rebased(first, start)
    ensures FirstPass(code, input, first, start)
  {}

  /** The first pass leaves nothing open. */
  lemma FirstPassOne(code: Code, input: seq<int>, first: seq<nat>, start: seq<nat>, first': seq<nat>, start': seq<nat>)
    requires code.Valid() && MessageUse(code) <= |input|
    requires FirstPass(code, input, first, start) && FirstPass(code, input, first', start')
    ensures first == first' && start == start'
  {
    hide MessageSteps, MessageUse, EndState, PathErr, StartErrors, Follows, Code.Valid;
    forall t | 0 <= t < code.States() ensures first[t] == first'[t] {}
    var m :| RebasedBy(first, start, m);
    var m' :| RebasedBy(first', start', m');
    RebasedOne(first, start, m, start', m');
  }

  lemma RebasedOne(first: seq<nat>, start: seq<nat>, m: nat, start': seq<nat>, m': nat)
    requires RebasedBy(first, start, m) && RebasedBy(first, start', m') && first != []
    requires forall t :: 0 <= t < |first| ==> first[t] <= MAX_AE
    ensures start == start'
  {
    assert start[0] >= 0 && start'[0] >= 0;
    if m in first {
      var t :| 0 <= t < |first| && first[t] == m;
      assert start'[t] >= 0;
    }
    if m' in first {
      var t :| 0 <= t < |first| && first[t] == m';
      assert start[t] >= 0;
    }
    assert m == m';
  }

  lemma MessageLengths(code: Code)
    requires code.Valid()
    ensures |MessageTails(code)| == code.len + if code.term == Flush then code.k - 1 else 0
    ensures MessageTails(code) == Marks(code.len, false) + Marks(|MessageTails(code)| - code.len, true)
  {}

  lemma MessagePathIs(code: Code, bits: seq<Bit>)
    requires code.Valid() && |bits| == code.len
    ensures MessagePath(code, bits) == DataPath(bits) + TailPath(|MessageTails(code)| - code.len)
  {}

  /** The tables of a decoder that has read a message. */
  lemma FinishedRun(decoder: Decoder, input: seq<int>)
    requires decoder.Valid() && MessageUse(decoder.code) <= |input|
    requires decoder.tails == MessageTails(decoder.code)
    requires decoder.received == input[..MessageUse(decoder.code)]
    ensures Run(decoder.code, MessageSteps(decoder.code, input), decoder.aes, decoder.rows)
    ensures StepsOf(decoder.code, decoder.tails, decoder.received) == MessageSteps(decoder.code, input)
    ensures |decoder.aes| == decoder.oIdx + 1 == |decoder.tails| + 1
    ensures decoder.aes[decoder.oIdx] == decoder.ae[..]
  {
    hide StepsOf, UsedBy, Code.Valid, MessageTails, Run, Flat, PosAfter;
    StepsOfMessage(decoder.code, input);
  }

  /** The errors after a pass from state 0 are optimal. */
  lemma FirstErrors(decoder: Decoder, input: seq<int>) returns (first: seq<nat>)
    requires decoder.Valid() && decoder.code.Separated() && MessageUse(decoder.code) <= |input|
    requires decoder.tails == MessageTails(decoder.code) && |decoder.aes| > 0
    requires decoder.received == input[..MessageUse(decoder.code)]
    ensures first == decoder.ae[..] && |first| == |decoder.aes[0]| == decoder.code.States()
    ensures Optimal(decoder.code, MessageSteps(decoder.code, input), decoder.aes[0], first)
  {
    hide StepsOf, UsedBy, Code.Valid, Code.Separated, MessageTails, MessageUse, Run, Flat, PosAfter, Optimal, Tables;
    FinishedRun(decoder, input);
    RunOptimal(decoder.code, MessageSteps(decoder.code, input), decoder.aes, decoder.rows);
    first := decoder.ae[..];
  }
}
