/**
  The error measure the Viterbi decoder minimises, the relation its tables satisfy after
  every trellis step, and what that relation says about all paths through the trellis.
 */
module ConvTrellis {
  import opened ConvCode

  /** Accumulated errors saturate here. */
  const MAX_AE: nat := 0x00ffffff

  /** One received step: n soft bits (0 for a punctured one), and whether it is a termination step. */
  datatype Step = Step(sym: seq<int>, tail: bool)

  /** The scaled squared distance of a soft bit from the soft value of a code bit. */
  function BitErr(soft: int, b: Bit): (e: nat)
  {
    if soft == 0 then 0
    else
      var d := soft - if b then -127 else 127;
      Scaled(d)
  }

  function Scaled(d: int): (e: nat)
  {
    Squared(d) / 512
  }

  function Squared(d: int): (e: nat)
  {
    d * d
  }

  function WordErr(sym: seq<int>, word: seq<Bit>): (e: nat)
    requires |sym| == |word|
  {
    if sym == [] then 0
    else
      var m := |sym| - 1;
      WordErr(sym[..m], word[..m]) + BitErr(sym[m], word[m])
  }

  function BranchErr(code: Code, sym: seq<int>, s: nat, x: Input): (e: nat)
    requires code.Valid() && s < code.States() && |sym| == code.n
  {
    WordErr(sym, Symbol(code.Out(s, x), code.n))
  }

  predicate WellFormed(code: Code, steps: seq<Step>) {
    forall i :: 0 <= i < |steps| ==> |steps[i].sym| == code.n
  }

  /** The path takes data branches in data steps and termination branches in termination steps. */
  predicate Follows(steps: seq<Step>, path: seq<Input>) {
    && |path| == |steps|
    && forall i :: 0 <= i < |path| ==> (path[i].Tail? <==> steps[i].tail)
  }

  /** The error a path accumulates. */
  function PathErr(code: Code, steps: seq<Step>, s: nat, path: seq<Input>): (e: nat)
    requires code.Valid() && s < code.States() && WellFormed(code, steps) && Follows(steps, path)
  {
    if path == [] then 0
    else
      var m := |path| - 1;
      PathErr(code, steps[..m], s, path[..m])
        + BranchErr(code, steps[m].sym, EndState(code, s, path[..m]), path[m])
  }

  // ---------------------------------------------------------------- one trellis layer

  predicate Branch(step: Step, x: Input) {
    x.Tail? <==> step.tail
  }

  /**
    next and origin are what the decoder computes from the accumulated errors prev in one
    step: no branch is cheaper than next says, and a state whose error is not saturated is
    reached from its recorded origin at exactly that cost.
   */
  ghost predicate Survivors(code: Code, step: Step, prev: seq<nat>, next: seq<nat>, origin: seq<nat>)
    requires code.Valid() && |step.sym| == code.n
  {
    && |prev| == |next| == |origin| == code.States()
    && (forall s, x :: 0 <= s < code.States() && Branch(step, x) ==>
          next[code.Next(s, x)] <= prev[s] + BranchErr(code, step.sym, s, x))
    && (forall t :: 0 <= t < code.States() ==> next[t] <= MAX_AE)
    && (forall t :: 0 <= t < code.States() && next[t] < MAX_AE ==>
          Reached(code, step, prev, next, origin, t))
  }

  ghost predicate Reached(code: Code, step: Step, prev: seq<nat>, next: seq<nat>, origin: seq<nat>, t: nat)
    requires code.Valid() && |step.sym| == code.n
    requires |prev| == |next| == |origin| == code.States() && t < code.States()
  {
    && origin[t] < code.States()
    && exists x :: Branch(step, x) && code.Next(origin[t], x) == t
         && next[t] == prev[origin[t]] + BranchErr(code, step.sym, origin[t], x)
  }

  /** The tables of a whole run: aes holds the accumulated errors before and after each step. */
  ghost predicate Run(code: Code, steps: seq<Step>, aes: seq<seq<nat>>, rows: seq<seq<nat>>)
    requires code.Valid() && WellFormed(code, steps)
  {
    && |aes| == |steps| + 1 && |rows| == |steps| && |aes[0]| == code.States()
    && (forall t :: 0 <= t < |aes[0]| ==> aes[0][t] <= MAX_AE)
    && forall r :: 0 <= r < |steps| ==> Survivors(code, steps[r], aes[r], aes[r + 1], rows[r])
  }

  lemma RunPrefix(code: Code, steps: seq<Step>, aes: seq<seq<nat>>, rows: seq<seq<nat>>)
    requires code.Valid() && WellFormed(code, steps) && Run(code, steps, aes, rows) && steps != []
    ensures var m := |steps| - 1;
      && Run(code, steps[..m], aes[..m + 1], rows[..m])
      && Survivors(code, steps[m], aes[m], aes[m + 1], rows[m])
      && |aes[m]| == |aes[m + 1]| == |rows[m]| == code.States()
  {
    hide Survivors, Code.Valid;
    var m := |steps| - 1;
    SurvivorsLengths(code, steps[m], aes[m], aes[m + 1], rows[m]);
  }

  lemma SurvivorsLengths(code: Code, step: Step, prev: seq<nat>, next: seq<nat>, origin: seq<nat>)
    requires code.Valid() && |step.sym| == code.n && Survivors(code, step, prev, next, origin)
    ensures |prev| == |next| == |origin| == code.States()
    ensures forall t :: 0 <= t < code.States() ==> next[t] <= MAX_AE
  {}

  lemma RunSnoc(code: Code, steps: seq<Step>, aes: seq<seq<nat>>, rows: seq<seq<nat>>,
                step: Step, next: seq<nat>, origin: seq<nat>)
    requires code.Valid() && WellFormed(code, steps) && Run(code, steps, aes, rows)
    requires |step.sym| == code.n && Survivors(code, step, aes[|steps|], next, origin)
    ensures WellFormed(code, steps + [step])
    ensures Run(code, steps + [step], aes + [next], rows + [origin])
  {
    hide Survivors, Code.Valid;
  }

  // ---------------------------------------------------------------- all paths

  /** No path to a state is cheaper than the state's accumulated error. */
  lemma {:induction false} NoPathCheaper(code: Code, steps: seq<Step>, aes: seq<seq<nat>>, rows: seq<seq<nat>>,
                                         s: nat, path: seq<Input>)
    requires code.Valid() && WellFormed(code, steps) && Run(code, steps, aes, rows)
    requires s < code.States() && Follows(steps, path)
    ensures |aes[|steps|]| == code.States()
    ensures aes[|steps|][EndState(code, s, path)] <= aes[0][s] + PathErr(code, steps, s, path)
  {
    hide Run, Code.Valid;
    RunLengths(code, steps, aes, rows);
    if path != [] {
      var m := |path| - 1;
      RunPrefix(code, steps, aes, rows);
      NoPathCheaper(code, steps[..m], aes[..m + 1], rows[..m], s, path[..m]);
    }
  }

  lemma RunLengths(code: Code, steps: seq<Step>, aes: seq<seq<nat>>, rows: seq<seq<nat>>)
    requires code.Valid() && WellFormed(code, steps) && Run(code, steps, aes, rows)
    ensures |aes| == |steps| + 1 && |rows| == |steps|
    ensures |aes[0]| == |aes[|steps|]| == code.States()
    ensures forall t :: 0 <= t < code.States() ==> aes[|steps|][t] <= MAX_AE
  {
    if steps != [] {
      var m := |steps| - 1;
      RunPrefix(code, steps, aes, rows);
      SurvivorsLengths(code, steps[m], aes[m], aes[m + 1], rows[m]);
    }
  }

  /** The branch the decoder reads off two consecutive states on the survivor path. */
  function ReadBranch(code: Code, step: Step, s: nat, t: nat): Input
    requires code.Valid() && s < code.States()
  {
    if step.tail then Tail else Data(code.nextState[s][0] != t)
  }

  lemma ReachedByReadBranch(code: Code, step: Step, prev: seq<nat>, next: seq<nat>, origin: seq<nat>, t: nat)
    requires code.Valid() && code.Separated() && |step.sym| == code.n
    requires Survivors(code, step, prev, next, origin) && t < code.States() && next[t] < MAX_AE
    ensures origin[t] < code.States() && prev[origin[t]] < MAX_AE
    ensures var x := ReadBranch(code, step, origin[t], t);
      && Branch(step, x) && code.Next(origin[t], x) == t
      && next[t] == prev[origin[t]] + BranchErr(code, step.sym, origin[t], x)
  {
    assert Reached(code, step, prev, next, origin, t);
    var x :| Branch(step, x) && code.Next(origin[t], x) == t
      && next[t] == prev[origin[t]] + BranchErr(code, step.sym, origin[t], x);
    assert x == ReadBranch(code, step, origin[t], t);
  }

  /** A state is reachable in the recorded tables when its error is not saturated. */
  ghost predicate Alive(code: Code, steps: seq<Step>, aes: seq<seq<nat>>, rows: seq<seq<nat>>, t: nat)
    requires code.Valid() && WellFormed(code, steps)
  {
    && Run(code, steps, aes, rows) && t < code.States() && |aes[|steps|]| == code.States()
    && aes[|steps|][t] < MAX_AE
  }

  lemma AlivePrefix(code: Code, steps: seq<Step>, aes: seq<seq<nat>>, rows: seq<seq<nat>>, t: nat)
    requires code.Valid() && code.Separated() && WellFormed(code, steps) && steps != []
    requires Alive(code, steps, aes, rows, t)
    ensures var m := |steps| - 1;
      && |rows[m]| == code.States() && rows[m][t] < code.States()
      && Alive(code, steps[..m], aes[..m + 1], rows[..m], rows[m][t])
  {
    hide Run, Code.Valid, Code.Separated, Survivors;
    var m := |steps| - 1;
    RunLengths(code, steps, aes, rows);
    RunPrefix(code, steps, aes, rows);
    ReachedByReadBranch(code, steps[m], aes[m], aes[m + 1], rows[m], t);
  }

  /** The survivor path into state t, read backwards through the recorded origins. */
  ghost function Survivor(code: Code, steps: seq<Step>, aes: seq<seq<nat>>, rows: seq<seq<nat>>, t: nat)
    : (path: seq<Input>)
    requires code.Valid() && code.Separated() && WellFormed(code, steps)
    requires Alive(code, steps, aes, rows, t)
    ensures |path| == |steps|
    decreases |steps|
  {
    if steps == [] then []
    else
      var m := |steps| - 1;
      AlivePrefix(code, steps, aes, rows, t);
      Survivor(code, steps[..m], aes[..m + 1], rows[..m], rows[m][t])
        + [ReadBranch(code, steps[m], rows[m][t], t)]
  }

  /** The state that path starts in. */
  ghost function SurvivorStart(code: Code, steps: seq<Step>, aes: seq<seq<nat>>, rows: seq<seq<nat>>, t: nat)
    : (s: nat)
    requires code.Valid() && code.Separated() && WellFormed(code, steps)
    requires Alive(code, steps, aes, rows, t)
    ensures s < code.States()
    decreases |steps|
  {
    if steps == [] then t
    else
      var m := |steps| - 1;
      AlivePrefix(code, steps, aes, rows, t);
      SurvivorStart(code, steps[..m], aes[..m + 1], rows[..m], rows[m][t])
  }

  lemma SurvivorUnfold(code: Code, steps: seq<Step>, aes: seq<seq<nat>>, rows: seq<seq<nat>>, t: nat)
    requires code.Valid() && code.Separated() && WellFormed(code, steps) && steps != []
    requires Alive(code, steps, aes, rows, t)
    ensures var m := |steps| - 1;
      && |aes| == m + 2 && |rows| == m + 1 && |rows[m]| == code.States() && rows[m][t] < code.States()
      && Alive(code, steps[..m], aes[..m + 1], rows[..m], rows[m][t])
      && SurvivorStart(code, steps, aes, rows, t)
         == SurvivorStart(code, steps[..m], aes[..m + 1], rows[..m], rows[m][t])
      && Survivor(code, steps, aes, rows, t)
         == Survivor(code, steps[..m], aes[..m + 1], rows[..m], rows[m][t])
            + [ReadBranch(code, steps[m], rows[m][t], t)]
  {
    hide Run, Code.Valid, Code.Separated, Survivors, ReadBranch;
    RunLengths(code, steps, aes, rows);
    AlivePrefix(code, steps, aes, rows, t);
  }

  lemma PathSnoc(code: Code, steps: seq<Step>, s: nat, path: seq<Input>, x: Input)
    requires code.Valid() && s < code.States() && WellFormed(code, steps) && |steps| == |path| + 1
    requires Follows(steps[..|path|], path) && Branch(steps[|path|], x)
    ensures Follows(steps, path + [x])
    ensures EndState(code, s, path + [x]) == code.Next(EndState(code, s, path), x)
    ensures PathErr(code, steps, s, path + [x])
         == PathErr(code, steps[..|path|], s, path)
            + BranchErr(code, steps[|path|].sym, EndState(code, s, path), x)
  {
    hide Code.Valid, BranchErr;
    assert (path + [x])[..|path|] == path;
  }

  /** Tracing back from a state that is not saturated finds a path with exactly its error. */
  lemma {:induction false} SurvivorCost(code: Code, steps: seq<Step>, aes: seq<seq<nat>>, rows: seq<seq<nat>>, t: nat)
    requires code.Valid() && code.Separated() && WellFormed(code, steps)
    requires Alive(code, steps, aes, rows, t)
    ensures var s, path := SurvivorStart(code, steps, aes, rows, t), Survivor(code, steps, aes, rows, t);
      && Follows(steps, path)
      && EndState(code, s, path) == t
      && |aes[0]| == code.States()
      && aes[|steps|][t] == aes[0][s] + PathErr(code, steps, s, path)
    decreases |steps|
  {
    hide Run, Code.Valid, Code.Separated, Survivors, BranchErr, ReadBranch;
    RunLengths(code, steps, aes, rows);
    if steps != [] {
      var m := |steps| - 1;
      AlivePrefix(code, steps, aes, rows, t);
      RunPrefix(code, steps, aes, rows);
      ReachedByReadBranch(code, steps[m], aes[m], aes[m + 1], rows[m], t);
      SurvivorCost(code, steps[..m], aes[..m + 1], rows[..m], rows[m][t]);
      SurvivorUnfold(code, steps, aes, rows, t);
      var before := Survivor(code, steps[..m], aes[..m + 1], rows[..m], rows[m][t]);
      PathSnoc(code, steps, SurvivorStart(code, steps, aes, rows, t), before,
               ReadBranch(code, steps[m], rows[m][t], t));
    }
  }

  /** Reading the survivor path backwards has come to step i, state s; suffix was read so far. */
  ghost predicate OnSurvivor(code: Code, steps: seq<Step>, aes: seq<seq<nat>>, rows: seq<seq<nat>>,
                             end: nat, i: nat, s: nat, suffix: seq<Input>)
    requires code.Valid() && code.Separated() && WellFormed(code, steps)
    requires Alive(code, steps, aes, rows, end)
  {
    && i <= |steps| && i < |aes| && i <= |rows|
    && Alive(code, steps[..i], aes[..i + 1], rows[..i], s)
    && Survivor(code, steps, aes, rows, end) == Survivor(code, steps[..i], aes[..i + 1], rows[..i], s) + suffix
  }

  lemma OnSurvivorStart(code: Code, steps: seq<Step>, aes: seq<seq<nat>>, rows: seq<seq<nat>>, end: nat)
    requires code.Valid() && code.Separated() && WellFormed(code, steps)
    requires Alive(code, steps, aes, rows, end)
    ensures OnSurvivor(code, steps, aes, rows, end, |steps|, end, [])
  {
    hide Run, Code.Valid, Code.Separated, Survivors, Survivor;
    RunLengths(code, steps, aes, rows);
    assert steps[..|steps|] == steps && aes[..|steps| + 1] == aes && rows[..|steps|] == rows;
  }

  lemma OnSurvivorStep(code: Code, steps: seq<Step>, aes: seq<seq<nat>>, rows: seq<seq<nat>>,
                       end: nat, i: nat, t: nat, suffix: seq<Input>)
    requires code.Valid() && code.Separated() && WellFormed(code, steps)
    requires Alive(code, steps, aes, rows, end) && 0 < i
    requires OnSurvivor(code, steps, aes, rows, end, i, t, suffix)
    ensures i <= |steps| && i <= |rows| && |rows[i - 1]| == code.States()
    ensures t < code.States() && rows[i - 1][t] < code.States()
    ensures OnSurvivor(code, steps, aes, rows, end, i - 1, rows[i - 1][t],
                       [ReadBranch(code, steps[i - 1], rows[i - 1][t], t)] + suffix)
  {
    hide Run, Code.Valid, Code.Separated, Survivors, Survivor, ReadBranch;
    var steps', aes', rows' := steps[..i], aes[..i + 1], rows[..i];
    SurvivorUnfold(code, steps', aes', rows', t);
    assert steps'[..i - 1] == steps[..i - 1] && aes'[..i] == aes[..i] && rows'[..i - 1] == rows[..i - 1];
  }

  lemma OnSurvivorEnd(code: Code, steps: seq<Step>, aes: seq<seq<nat>>, rows: seq<seq<nat>>,
                      end: nat, s: nat, suffix: seq<Input>)
    requires code.Valid() && code.Separated() && WellFormed(code, steps)
    requires Alive(code, steps, aes, rows, end) && OnSurvivor(code, steps, aes, rows, end, 0, s, suffix)
    ensures Survivor(code, steps, aes, rows, end) == suffix
  {}

  /**
    ae[t] is the smaller of MAX_AE and the least error, over all start states and all
    paths, of a path into t, when starting in state s costs ae0[s].
   */
  ghost predicate Optimal(code: Code, steps: seq<Step>, ae0: seq<nat>, ae: seq<nat>)
    requires code.Valid() && WellFormed(code, steps)
    requires |ae0| == |ae| == code.States()
  {
    && (forall s, path :: 0 <= s < code.States() && Follows(steps, path) ==>
          ae[EndState(code, s, path)] <= ae0[s] + PathErr(code, steps, s, path))
    && (forall t :: 0 <= t < code.States() ==> ae[t] <= MAX_AE)
    && (forall t :: 0 <= t < code.States() && ae[t] < MAX_AE ==>
          exists s, path ::
            0 <= s < code.States() && Follows(steps, path) && EndState(code, s, path) == t
            && ae[t] == ae0[s] + PathErr(code, steps, s, path))
  }

  lemma RunOptimal(code: Code, steps: seq<Step>, aes: seq<seq<nat>>, rows: seq<seq<nat>>)
    requires code.Valid() && code.Separated() && WellFormed(code, steps) && Run(code, steps, aes, rows)
    ensures |aes[0]| == |aes[|steps|]| == code.States()
    ensures Optimal(code, steps, aes[0], aes[|steps|])
  {
    hide Run, Code.Valid, Code.Separated;
    RunLengths(code, steps, aes, rows);
    var ae := aes[|steps|];
    forall s, path | 0 <= s < code.States() && Follows(steps, path)
      ensures ae[EndState(code, s, path)] <= aes[0][s] + PathErr(code, steps, s, path)
    {
      NoPathCheaper(code, steps, aes, rows, s, path);
    }
    forall t | 0 <= t < code.States() && ae[t] < MAX_AE
      ensures exists s, path ::
        0 <= s < code.States() && Follows(steps, path) && EndState(code, s, path) == t
        && ae[t] == aes[0][s] + PathErr(code, steps, s, path)
    {
      SurvivorCost(code, steps, aes, rows, t);
    }
  }

  // ---------------------------------------------------------------- computing one layer

  /** Accumulated errors and origins while a layer is being computed. */
  datatype Layer = Layer(ae: seq<nat>, origin: seq<nat>)

  /** Trying branch x of state s as a survivor. */
  function TryBranch(code: Code, sym: seq<int>, prev: seq<nat>, l: Layer, s: nat, x: Input): (l': Layer)
    requires code.Valid() && |sym| == code.n && s < code.States()
    requires |prev| == |l.ae| == |l.origin| == code.States()
    ensures |l'.ae| == |l'.origin| == code.States()
  {
    var t, nae := code.Next(s, x), prev[s] + BranchErr(code, sym, s, x);
    if l.ae[t] > nae then Layer(l.ae[t := nae], l.origin[t := s]) else l
  }

  /** Trying every branch of state s. */
  function TryState(code: Code, step: Step, prev: seq<nat>, l: Layer, s: nat): (l': Layer)
    requires code.Valid() && |step.sym| == code.n && s < code.States()
    requires |prev| == |l.ae| == |l.origin| == code.States()
    ensures |l'.ae| == |l'.origin| == code.States()
  {
    if step.tail then TryBranch(code, step.sym, prev, l, s, Tail)
    else TryBranch(code, step.sym, prev, TryBranch(code, step.sym, prev, l, s, Data(false)), s, Data(true))
  }

  /** What holds of a layer when some set of branches has been tried. */
  ghost predicate Tried(code: Code, step: Step, prev: seq<nat>, l: Layer, tried: iset<(nat, Input)>)
    requires code.Valid() && |step.sym| == code.n
  {
    && |prev| == |l.ae| == |l.origin| == code.States()
    && (forall s: nat, x :: s < code.States() && (s, x) in tried ==>
          l.ae[code.Next(s, x)] <= prev[s] + BranchErr(code, step.sym, s, x))
    && (forall t :: 0 <= t < code.States() ==> l.ae[t] <= MAX_AE)
    && (forall t :: 0 <= t < code.States() && l.ae[t] < MAX_AE ==>
          Reached(code, step, prev, l.ae, l.origin, t))
  }

  lemma TryBranchKeeps(code: Code, step: Step, prev: seq<nat>, l: Layer, tried: iset<(nat, Input)>, s: nat, x: Input)
    requires code.Valid() && |step.sym| == code.n && s < code.States() && Branch(step, x)
    requires Tried(code, step, prev, l, tried)
    ensures Tried(code, step, prev, TryBranch(code, step.sym, prev, l, s, x), tried + iset{(s, x)})
  {
    hide Code.Valid, BranchErr, Code.Next;
    var l' := TryBranch(code, step.sym, prev, l, s, x);
    forall t | 0 <= t < code.States() && l'.ae[t] < MAX_AE
      ensures Reached(code, step, prev, l'.ae, l'.origin, t)
    {
      if l'.ae[t] == l.ae[t] && l'.origin[t] == l.origin[t] {
        assert Reached(code, step, prev, l.ae, l.origin, t);
      } else {
        assert code.Next(s, x) == t;
      }
    }
  }

  ghost function StatesBelow(step: Step, m: nat): iset<(nat, Input)> {
    iset s: nat, x: Input | s < m && Branch(step, x) :: (s, x)
  }

  lemma TryStateKeeps(code: Code, step: Step, prev: seq<nat>, l: Layer, s: nat)
    requires code.Valid() && |step.sym| == code.n && s < code.States()
    requires Tried(code, step, prev, l, StatesBelow(step, s))
    ensures Tried(code, step, prev, TryState(code, step, prev, l, s), StatesBelow(step, s + 1))
  {
    hide Code.Valid, Tried, TryBranch;
    TriedLengths(code, step, prev, l, StatesBelow(step, s));
    if step.tail {
      TryBranchKeeps(code, step, prev, l, StatesBelow(step, s), s, Tail);
      assert StatesBelow(step, s + 1) == StatesBelow(step, s) + iset{(s, Tail)};
    } else {
      var l' := TryBranch(code, step.sym, prev, l, s, Data(false));
      TryBranchKeeps(code, step, prev, l, StatesBelow(step, s), s, Data(false));
      TryBranchKeeps(code, step, prev, l', StatesBelow(step, s) + iset{(s, Data(false))}, s, Data(true));
      assert StatesBelow(step, s + 1)
          == StatesBelow(step, s) + iset{(s, Data(false))} + iset{(s, Data(true))};
    }
  }

  lemma TriedLengths(code: Code, step: Step, prev: seq<nat>, l: Layer, tried: iset<(nat, Input)>)
    requires code.Valid() && |step.sym| == code.n && Tried(code, step, prev, l, tried)
    ensures |prev| == |l.ae| == |l.origin| == code.States()
  {}

  lemma NothingTried(code: Code, step: Step, prev: seq<nat>, l: Layer)
    requires code.Valid() && |step.sym| == code.n
    requires |prev| == |l.ae| == |l.origin| == code.States()
    requires forall t :: 0 <= t < code.States() ==> l.ae[t] == MAX_AE
    ensures Tried(code, step, prev, l, StatesBelow(step, 0))
  {}

  lemma AllTried(code: Code, step: Step, prev: seq<nat>, l: Layer)
    requires code.Valid() && |step.sym| == code.n
    requires Tried(code, step, prev, l, StatesBelow(step, code.States()))
    ensures Survivors(code, step, prev, l.ae, l.origin)
  {
    hide Code.Valid, BranchErr, Reached, Code.Next;
    forall s, x | 0 <= s < code.States() && Branch(step, x)
      ensures l.ae[code.Next(s, x)] <= prev[s] + BranchErr(code, step.sym, s, x)
    {
      assert (s, x) in StatesBelow(step, code.States());
    }
  }
}
