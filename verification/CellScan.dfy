/**
  The cell scanner: measure the power of all channels, then synchronise to one after the other,
  strongest first, read the system information, ask for a channel, and write a record.
 */
module CellScan {
  import opened Options

  const CHANNELS: nat := 1024
  const MIN_RXLEV: int := -106
  const FRAME: nat := 23

  /** struct pm_info */
  datatype Cell = Cell(measured: bool, synced: bool, rxlev: int)

  const UNMEASURED := Cell(false, false, 0)

  /** A signed byte. */
  function ToInt8(x: int): (r: int)
    ensures -128 <= r < 128 && (-128 <= x < 128 ==> r == x)
  {
    (x + 128) % 256 - 128
  }

  /** It is the number with the same eight lowest bits. */
  lemma ToInt8Is(x: int)
    ensures (ToInt8(x) - x) % 256 == 0
  {}

  // ---------------------------------------------------------------- which channel is next

  ghost predicate Candidate(c: Cell) {
    c.measured && !c.synced && c.rxlev > -128
  }

  /** a is stronger, or as strong and of a lower number. */
  ghost predicate Before(pm: seq<Cell>, a: nat, b: nat)
    requires a < |pm| && b < |pm|
  {
    pm[a].rxlev > pm[b].rxlev || (pm[a].rxlev == pm[b].rxlev && a < b)
  }

  /** The strongest candidate of the first n channels; n if there is none. */
  ghost predicate IsBest(pm: seq<Cell>, n: nat, a: nat)
    requires n <= |pm|
  {
    if a < n then Candidate(pm[a]) && forall b :: 0 <= b < n && b != a && Candidate(pm[b]) ==> Before(pm, a, b)
    else forall b :: 0 <= b < n ==> !Candidate(pm[b])
  }

  /** Some channel not tuned to yet is strong enough. */
  ghost predicate MoreToTune(pm: seq<Cell>) {
    exists a :: 0 <= a < |pm| && pm[a].measured && !pm[a].synced && pm[a].rxlev >= MIN_RXLEV
  }

  /** It is enough to look at the best channel. */
  lemma BestIsEnough(pm: seq<Cell>, best: nat)
    requires IsBest(pm, |pm|, best)
    ensures MoreToTune(pm) <==> best < |pm| && pm[best].rxlev >= MIN_RXLEV
  {
    if MoreToTune(pm) {
      var a :| 0 <= a < |pm| && pm[a].measured && !pm[a].synced && pm[a].rxlev >= MIN_RXLEV;
      assert Candidate(pm[a]);
      assert best < |pm| && (a != best ==> Before(pm, best, a));
    }
  }

  // ---------------------------------------------------------------- rounds

  /** One round: the measurement, the channels tuned to in turn, and whether it ended because the place changed. */
  datatype Round = Round(pm: seq<Cell>, tuned: seq<nat>, far: bool)

  /** The channels tuned to so far. */
  ghost predicate InRound(pm: seq<Cell>, tuned: seq<nat>) {
    && (forall i :: 0 <= i < |tuned| ==> tuned[i] < |pm| && pm[tuned[i]].measured && pm[tuned[i]].rxlev >= MIN_RXLEV)
    && (forall i, j :: 0 <= i < j < |tuned| ==> Before(pm, tuned[i], tuned[j]))
    && (forall a :: 0 <= a < |pm| ==> (pm[a].synced <==> a in tuned))
    && (forall i, a :: 0 <= i < |tuned| && 0 <= a < |pm| && pm[a].measured && !pm[a].synced ==> Before(pm, tuned[i], a))
  }

  /**
    In a round each channel is tuned to at most once, in the order of falling power and then rising
    number, and none too weak; if the place did not change, none strong enough is left out.
   */
  ghost predicate RoundOk(r: Round) {
    && (forall i :: 0 <= i < |r.tuned| ==>
      r.tuned[i] < |r.pm| && r.pm[r.tuned[i]].measured && r.pm[r.tuned[i]].rxlev >= MIN_RXLEV)
    && (forall i, j :: 0 <= i < j < |r.tuned| ==> Before(r.pm, r.tuned[i], r.tuned[j]))
    && (!r.far ==> forall a :: 0 <= a < |r.pm| && r.pm[a].measured && r.pm[a].rxlev >= MIN_RXLEV ==> a in r.tuned)
  }

  /** Said of the levels: they fall from channel to channel, and where two are the same the number rises. */
  lemma LevelsFall(r: Round, i: nat, j: nat)
    requires RoundOk(r) && i < j < |r.tuned|
    ensures var a, b := r.tuned[i], r.tuned[j];
      && a < |r.pm| && b < |r.pm| && a != b && r.pm[a].measured && r.pm[a].rxlev >= r.pm[b].rxlev >= MIN_RXLEV
      && (r.pm[a].rxlev == r.pm[b].rxlev ==> a < b)
  {
    assert Before(r.pm, r.tuned[i], r.tuned[j]);
  }

  /** Two undisturbed rounds over the same measurement tune to the same channels in the same order. */
  lemma {:induction false} RoundDetermined(r: Round, s: Round, i: nat)
    requires RoundOk(r) && RoundOk(s) && !r.far && !s.far && r.pm == s.pm && i < |r.tuned| && i < |s.tuned|
    ensures r.tuned[i] == s.tuned[i]
    decreases i
  {
    forall k | 0 <= k < i ensures r.tuned[k] == s.tuned[k] {
      RoundDetermined(r, s, k);
    }
    var a, b := r.tuned[i], s.tuned[i];
    assert a in s.tuned && b in r.tuned;
    var ja: nat :| ja < |s.tuned| && s.tuned[ja] == a;
    var jb: nat :| jb < |r.tuned| && r.tuned[jb] == b;
    assert ja >= i && jb >= i;
  }

  /** A round that ends is in order, whatever was the reason. */
  lemma RoundEnds(pm: seq<Cell>, tuned: seq<nat>, far: bool)
    requires InRound(pm, tuned) && (far || !MoreToTune(pm))
    ensures RoundOk(Round(pm, tuned, far))
  {}

  /** Tuning to the best channel there is. */
  lemma TunedNext(pm: seq<Cell>, tuned: seq<nat>, a: nat)
    requires InRound(pm, tuned) && a < |pm| && IsBest(pm, |pm|, a) && pm[a].rxlev >= MIN_RXLEV
    requires forall b :: 0 <= b < |pm| ==> pm[b].rxlev >= -128
    ensures InRound(pm[a := pm[a].(synced := true)], tuned + [a])
  {
    var pm', tuned' := pm[a := pm[a].(synced := true)], tuned + [a];
    forall i, j | 0 <= i < j < |tuned'| ensures Before(pm', tuned'[i], tuned'[j]) {
      if j == |tuned| { assert Before(pm, tuned[i], a); } else { assert Before(pm, tuned[i], tuned[j]); }
    }
    forall b | 0 <= b < |pm'| ensures pm'[b].synced <==> b in tuned' {
      assert tuned'[|tuned|] == a;
      if b in tuned {
        var i: nat :| i < |tuned| && tuned[i] == b;
        assert tuned'[i] == b;
      }
    }
    forall i, b | 0 <= i < |tuned'| && 0 <= b < |pm'| && pm'[b].measured && !pm'[b].synced
      ensures Before(pm', tuned'[i], b)
    {
      if i < |tuned| { assert Before(pm, tuned[i], b); } else if Candidate(pm[b]) { assert Before(pm, a, b); }
    }
  }

  /** A round has not begun while measuring. */
  ghost predicate Fresh(pm: seq<Cell>) {
    forall a :: 0 <= a < |pm| ==> !pm[a].synced
  }

  lemma FreshRound(pm: seq<Cell>)
    requires Fresh(pm)
    ensures InRound(pm, [])
  {}

  // ---------------------------------------------------------------- system information

  datatype Kind = SI1 | SI2 | SI2bis | SI2ter | SI3 | SI4

  /** What was read of a cell; the two indicators come with SI2 and SI3. */
  datatype Info = Info(arfcn: nat, got: map<Kind, seq<nat>>, extended: bool, ter: bool)

  const ZEROS: seq<nat> := [0, 0, 0, 0, 0, 0, 0, 0, 0, 0, 0, 0, 0, 0, 0, 0, 0, 0, 0, 0, 0, 0, 0]

  function Message(info: Info, k: Kind): seq<nat> {
    if k in info.got then info.got[k] else ZEROS
  }

  /** What was not read yet counts as all zeros, so that a message of zeros is never new. */
  lemma NotReadYet(info: Info, k: Kind)
    requires k !in info.got
    ensures |Message(info, k)| == FRAME && forall i :: 0 <= i < FRAME ==> Message(info, k)[i] == 0
  {}

  /** The information with one more message read. */
  function Updated(info: Info, k: Kind, msg: seq<nat>, extended: bool, ter: bool): Info {
    Info(info.arfcn, info.got[k := msg],
         if k == SI2 then extended else info.extended,
         if k == SI3 then ter else info.ter)
  }

  predicate Mandatory(got: map<Kind, seq<nat>>) {
    SI1 in got && SI2 in got && SI3 in got && SI4 in got
  }

  predicate Complete(info: Info) {
    Mandatory(info.got) && (info.extended ==> SI2bis in info.got) && (info.ter ==> SI2ter in info.got)
  }

  /** A record in the log: what was read of the cell, and the number of the synchronisation it comes from. */
  datatype Record = Record(info: Info, ta: Option<nat>, sync: nat)

  /** The optional messages that SI2 and SI3 announce are there. */
  ghost predicate Announced(info: Info) {
    (info.extended ==> SI2bis in info.got) && (info.ter ==> SI2ter in info.got)
  }

  /**
    All records have the four mandatory messages, and no two come from the same synchronisation.
    A record has the announced messages as well, except in a late synchronisation: one in which a
    message read while requests were under way announced another that did not come.
   */
  ghost predicate RecordsOk(records: seq<Record>, syncs: nat, late: set<nat>) {
    && (forall i :: 0 <= i < |records| ==>
          && SI1 in records[i].info.got && SI2 in records[i].info.got
          && SI3 in records[i].info.got && SI4 in records[i].info.got
          && records[i].sync <= syncs && (Announced(records[i].info) <==> records[i].sync !in late))
    && (forall x :: x in late ==> x <= syncs)
    && (forall i, j :: 0 <= i < j < |records| ==> records[i].sync < records[j].sync)
  }

  ghost predicate Unrecorded(records: seq<Record>, syncs: nat) {
    forall i :: 0 <= i < |records| ==> records[i].sync < syncs
  }

  /** Whether the present synchronisation is late does not matter to the records so far. */
  lemma LateOrNot(records: seq<Record>, syncs: nat, late: set<nat>)
    requires RecordsOk(records, syncs, late) && Unrecorded(records, syncs)
    ensures RecordsOk(records, syncs, late + {syncs}) && RecordsOk(records, syncs, late - {syncs})
  {
    forall i | 0 <= i < |records| ensures records[i].sync != syncs {}
  }
}
