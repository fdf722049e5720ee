/** The scanner's callbacks: results from layer 1, frames from the cell, and the timer. */
module Scanner {
  import opened CellScan
  import opened Options

  datatype State = Pm | Sync | Read | Rach

  class Scan {
    const bands: seq<(nat, nat)>
    const rachMax: nat
    const pm: array<Cell>
    var state: State
    var started: bool
    var pmIndex: nat
    var arfcn: nat
    var info: Info
    var ta: Option<nat>
    var rachCount: nat
    var armed: bool
    var records: seq<Record>
    var syncs: nat
    ghost var tuned: seq<nat>
    ghost var rounds: seq<Round>
    ghost var late: set<nat>    // synchronisations with an announcement that came too late

    /** The band table ends with (0, 0) and does not start with it. */
    constructor (bands: seq<(nat, nat)>, rachMax: nat)
      requires |bands| > 1 && bands[0] != (0, 0) && bands[|bands| - 1] == (0, 0)
      ensures Valid() && !started && records == [] && rounds == [] && syncs == 0
    {
      this.bands, this.rachMax := bands, rachMax;
      pm := new Cell[CHANNELS](_ => UNMEASURED);
      state, started, pmIndex, arfcn := Pm, false, 0, 0;
      info, ta, rachCount, armed := Info(0, map[], false, false), None, 0, false;
      records, syncs, tuned, rounds, late := [], 0, [], [], {};
    }

    ghost predicate Sound()
      reads this, pm
    {
      && pm.Length == CHANNELS && |bands| > 1 && bands[0] != (0, 0) && bands[|bands| - 1] == (0, 0) && pmIndex < |bands|
      && (forall a :: 0 <= a < CHANNELS ==> pm[a].rxlev >= -128)
      && (forall r :: r in rounds ==> RoundOk(r))
      && RecordsOk(records, syncs, late)
    }

    ghost predicate Valid()
      reads this, pm
    {
      && Sound()
      && (if state == Pm then Fresh(pm[..]) && tuned == [] else InRound(pm[..], tuned))
      && (state == Pm ==> bands[pmIndex] != (0, 0))
      && (state != Pm ==> tuned != [] && info.arfcn == tuned[|tuned| - 1])
      && (state in {Read, Rach} ==> armed)
      && (state in {Read, Rach} ==> Unrecorded(records, syncs))
      && (state == Rach ==> Mandatory(info.got) && rachCount < rachMax)
      && (state in {Read, Rach} ==> (syncs in late <==> state == Rach && !Announced(info)))
    }

    /** What start_sync does to a measurement pm0 of which tuned0 was tuned to. */
    ghost predicate WentOn(pm0: seq<Cell>, tuned0: seq<nat>, rounds0: seq<Round>, far: bool)
      reads this, pm
    {
      if !far && MoreToTune(pm0) then
        && state == Sync && rounds == rounds0 && arfcn < |pm0| && IsBest(pm0, |pm0|, arfcn) && arfcn !in tuned0
        && pm[..] == pm0[arfcn := pm0[arfcn].(synced := true)] && tuned == tuned0 + [arfcn]
        && info == Info(arfcn, map[], false, false)
      else
        && state == Pm && pmIndex == 0 && rounds == rounds0 + [Round(pm0, tuned0, far)] && tuned == []
        && |pm[..]| == CHANNELS && forall a :: 0 <= a < CHANNELS ==> pm[..][a] == UNMEASURED
    }

    /** Nothing about the round changed. */
    ghost predicate SameRound(pm0: seq<Cell>, tuned0: seq<nat>, rounds0: seq<Round>)
      reads this, pm
    {
      pm[..] == pm0 && tuned == tuned0 && rounds == rounds0
    }

    /** The loop over all channels in start_sync. */
    method FindBest() returns (best: nat, rxlev: int)
      requires pm.Length == CHANNELS
      ensures best <= CHANNELS && IsBest(pm[..], CHANNELS, best)
      ensures if best < CHANNELS then rxlev == pm[best].rxlev else rxlev == -128
    {
      rxlev := -128;
      best := CHANNELS;
      var i := 0;
      while i < CHANNELS
        invariant i <= CHANNELS && (best == CHANNELS || best < i)
        invariant if best < CHANNELS then rxlev == pm[best].rxlev && IsBest(pm[..], i, best) else rxlev == -128
        invariant best == CHANNELS ==> forall b :: 0 <= b < i ==> !Candidate(pm[..][b])
        invariant rxlev >= -128
      {
        if pm[i].measured && !pm[i].synced {
          if pm[i].rxlev > rxlev {
            rxlev := pm[i].rxlev;
            best := i;
          }
        }
        i := i + 1;
      }
    }

    /** start_sync; far is whether the place has changed by more than the allowed distance. */
    method StartSync(far: bool)
      requires Sound() && InRound(pm[..], tuned)
      modifies this, pm
      ensures late == old(late)
      ensures Valid() && records == old(records) && syncs == old(syncs) && started == old(started)
      ensures WentOn(old(pm[..]), old(tuned), old(rounds), far)
    {
      var best, rxlev := FindBest();
      BestIsEnough(pm[..], best);
      if far || best == CHANNELS || rxlev < MIN_RXLEV {
        EndRound(far);
        return;
      }
      TunedNext(pm[..], tuned, best);
      NotTunedYet(pm[..], tuned, best);
      arfcn := best;
      pm[best] := pm[best].(synced := true);
      tuned := tuned + [best];
      info := Info(best, map[], false, false);
      state := Sync;
    }

    /** The branch of start_sync in which the round is over. */
    method EndRound(far: bool)
      requires Sound() && InRound(pm[..], tuned) && (far || !MoreToTune(pm[..]))
      modifies this, pm
      ensures late == old(late)
      ensures Valid() && records == old(records) && syncs == old(syncs) && started == old(started)
      ensures WentOn(old(pm[..]), old(tuned), old(rounds), far)
    {
      hide InRound, MoreToTune, RecordsOk, Unrecorded, RoundOk;
      RoundEnds(pm[..], tuned, far);
      rounds := rounds + [Round(pm[..], tuned, far)];
      tuned := [];
      ClearPm();
      pmIndex := 0;
      StartBand();
    }

    method ClearPm()
      requires pm.Length == CHANNELS
      modifies pm
      ensures forall a :: 0 <= a < CHANNELS ==> pm[a] == UNMEASURED
    {
      var i := 0;
      while i < CHANNELS
        invariant i <= CHANNELS && forall a :: 0 <= a < i ==> pm[a] == UNMEASURED
      {
        pm[i] := UNMEASURED;
        i := i + 1;
      }
    }

    /** start_pm for a band there is. */
    method StartBand()
      requires pmIndex < |bands| && bands[pmIndex] != (0, 0)
      modifies this`state
      ensures state == Pm
    {
      state := Pm;
    }

    // -------------------------------------------------------------- from layer 1

    /** S_L1CTL_RESET: only the first one starts the scan. */
    method Reset()
      requires Valid()
      modifies this, pm
      ensures late == old(late)
      ensures Valid() && started && records == old(records) && syncs == old(syncs)
      ensures old(started) ==> state == old(state) && SameRound(old(pm[..]), old(tuned), old(rounds))
      ensures !old(started) ==> state == Pm && pmIndex == 0 && rounds == old(rounds) && tuned == []
      ensures !old(started) ==> forall a :: 0 <= a < CHANNELS ==> pm[a] == UNMEASURED
    {
      if started {
        return;
      }
      started := true;
      tuned := [];
      ClearPm();
      pmIndex := 0;
      StartBand();
    }

    /** S_L1CTL_PM_RES: the level of one channel; it belongs into a round only while measuring. */
    method PmRes(bandArfcn: nat, level: nat)
      requires Valid()
      modifies pm
      ensures var a := bandArfcn % CHANNELS;
        pm[..] == old(pm[..])[a := Cell(true, old(pm[a].synced), ToInt8(level - 110))]
      ensures state == Pm ==> Valid()
    {
      var index := bandArfcn % CHANNELS;
      pm[index] := pm[index].(measured := true);
      pm[index] := pm[index].(rxlev := ToInt8(level - 110));
    }

    /**
      S_L1CTL_PM_DONE: the next band, or after the last one the first channel. Once all bands were
      measured one more report makes the index leave the table of bands.
     */
    method PmDone(far: bool) returns (inside: bool)
      requires Valid()
      modifies this, pm
      ensures late == old(late)
      ensures inside <==> old(pmIndex) + 1 < |bands|
      ensures records == old(records) && syncs == old(syncs) && started == old(started)
      ensures inside && old(bands[pmIndex + 1]) != (0, 0) ==>
        state == Pm && pmIndex == old(pmIndex) + 1 && SameRound(old(pm[..]), old(tuned), old(rounds))
          && info == old(info)
      ensures inside && old(bands[pmIndex + 1]) == (0, 0) ==> WentOn(old(pm[..]), old(tuned), old(rounds), far)
      ensures old(state) == Pm || (inside && old(bands[pmIndex + 1]) == (0, 0)) ==> inside && Valid()
    {
      inside := pmIndex + 1 < |bands|;
      if !inside {
        return;
      }
      pmIndex := pmIndex + 1;
      if bands[pmIndex] == (0, 0) {
        if state == Pm {
          FreshRound(pm[..]);
        }
        StartSync(far);
      } else {
        StartBand();
      }
    }

    /** S_L1CTL_FBSB_RESP: reading starts; it is no answer to anything while measuring. */
    method FbsbResp()
      requires Valid()
      modifies this
      ensures late == old(late)
      ensures state == Read && armed && syncs == old(syncs) + 1 && ta == None && info == old(info)
        && records == old(records)
      ensures SameRound(pm[..], old(tuned), old(rounds)) && Unrecorded(records, syncs)
      ensures old(state) != Pm ==> Valid()
    {
      syncs := syncs + 1;
      state := Read;
      ta := None;
      armed := true;
    }

    /** S_L1CTL_FBSB_ERR: the next channel. */
    method FbsbErr(far: bool)
      requires Valid()
      modifies this, pm
      ensures late == old(late)
      ensures Valid() && records == old(records) && syncs == old(syncs) && started == old(started)
      ensures WentOn(old(pm[..]), old(tuned), old(rounds), far)
    {
      if state == Pm {
        FreshRound(pm[..]);
      }
      StartSync(far);
    }

    // -------------------------------------------------------------- from the cell

    /** log_sysinfo */
    method LogSysinfo()
      requires RecordsOk(records, syncs, late) && Unrecorded(records, syncs) && Mandatory(info.got)
      requires syncs in late <==> !Announced(info)
      modifies this`records
      ensures RecordsOk(records, syncs, late) && records == old(records) + [Record(info, ta, syncs)]
    {
      records := records + [Record(info, ta, syncs)];
    }

    /** start_rach: one more request, or the record when there were enough. */
    method StartRach(far: bool)
      requires Sound() && InRound(pm[..], tuned) && Unrecorded(records, syncs)
      requires tuned != [] && info.arfcn == tuned[|tuned| - 1]
      requires Mandatory(info.got) && rachCount <= rachMax && (syncs in late <==> !Announced(info))
      modifies this, pm
      ensures late == old(late)
      ensures Valid() && syncs == old(syncs)
      ensures old(rachCount) < rachMax ==>
        && state == Rach && records == old(records) && rachCount == old(rachCount) && info == old(info)
        && SameRound(old(pm[..]), old(tuned), old(rounds))
      ensures old(rachCount) == rachMax ==>
        && records == old(records) + [Record(old(info), old(ta), syncs)]
        && WentOn(old(pm[..]), old(tuned), old(rounds), far)
    {
      if rachCount == rachMax {
        LogSysinfo();
        StartSync(far);
        return;
      }
      state := Rach;
      armed := true;
    }

    /** new_sysinfo: requests start once the information is complete. */
    method NewSysinfo(far: bool)
      requires Sound() && InRound(pm[..], tuned) && tuned != [] && info.arfcn == tuned[|tuned| - 1]
      requires state in {Read, Rach} && Unrecorded(records, syncs)
      requires state == Rach ==> Mandatory(info.got) && rachCount < rachMax
      modifies this, pm
      ensures late == if old(state) == Rach && !Announced(old(info)) then old(late) + {syncs} else old(late) - {syncs}
      ensures Valid() && syncs == old(syncs)
      ensures if !Complete(old(info)) then
          && state == old(state) && info == old(info) && records == old(records) && rachCount == old(rachCount)
          && SameRound(old(pm[..]), old(tuned), old(rounds))
        else if rachMax > 0 then
          && state == Rach && info == old(info) && records == old(records) && rachCount == 0
          && SameRound(old(pm[..]), old(tuned), old(rounds))
        else
          && records == old(records) + [Record(old(info), old(ta), syncs)]
          && WentOn(old(pm[..]), old(tuned), old(rounds), far)
    {
      hide InRound, Fresh, RecordsOk, RoundOk, Unrecorded, WentOn;
      // the timer is restarted
      armed := true;
      LateOrNot(records, syncs, late);
      late := if state == Rach && !Announced(info) then late + {syncs} else late - {syncs};
      if Complete(info) {
        armed := false;
        rachCount := 0;
        StartRach(far);
      }
    }

    /** bcch; the indicators are what the decoders of SI2 and SI3 find. */
    method Bcch(k: Kind, msg: seq<nat>, extended: bool, ter: bool, far: bool)
      requires Valid()
      modifies this, pm
      ensures !old(News(k, msg)) ==> late == old(late)
      ensures old(News(k, msg)) ==>
        late == if old(state) == Rach && !Announced(Updated(old(info), k, msg, extended, ter)) then old(late) + {syncs}
                else old(late) - {syncs}
      ensures Valid() && syncs == old(syncs)
      ensures !old(News(k, msg)) ==>
        && state == old(state) && info == old(info) && records == old(records)
        && SameRound(old(pm[..]), old(tuned), old(rounds))
      ensures old(News(k, msg)) ==> var i := Updated(old(info), k, msg, extended, ter);
        if !Complete(i) then
          && state == old(state) && info == i && records == old(records) && rachCount == old(rachCount)
          && SameRound(old(pm[..]), old(tuned), old(rounds))
        else if rachMax > 0 then
          && state == Rach && info == i && records == old(records) && rachCount == 0
          && SameRound(old(pm[..]), old(tuned), old(rounds))
        else
          && records == old(records) + [Record(i, old(ta), syncs)]
          && WentOn(old(pm[..]), old(tuned), old(rounds), far)
    {
      hide InRound, Fresh, RecordsOk, RoundOk, Unrecorded, WentOn;
      if state !in {Read, Rach} || |msg| != FRAME || Message(info, k) == msg {
        return;
      }
      info := info.(got := info.got[k := msg]);
      if k == SI2 {
        info := info.(extended := extended);
      }
      if k == SI3 {
        info := info.(ter := ter);
      }
      NewSysinfo(far);
    }

    /** A message that is read now, and was not read before. */
    ghost predicate News(k: Kind, msg: seq<nat>)
      reads this
    {
      state in {Read, Rach} && |msg| == FRAME && Message(info, k) != msg
    }

    /** An assignment or a rejection, for this phone's request or another's. */
    method Assigned(matching: bool, timingAdvance: Option<nat>, far: bool)
      requires Valid()
      modifies this, pm
      ensures late == old(late)
      ensures Valid() && syncs == old(syncs)
      ensures old(state) != Rach || !matching ==>
        && state == old(state) && info == old(info) && records == old(records)
        && SameRound(old(pm[..]), old(tuned), old(rounds))
      ensures old(state) == Rach && matching ==>
        && records == old(records)
          + [Record(old(info), if timingAdvance == None then old(ta) else timingAdvance, syncs)]
        && WentOn(old(pm[..]), old(tuned), old(rounds), far)
    {
      if state != Rach || !matching {
        return;
      }
      armed := false;
      if timingAdvance != None {
        ta := timingAdvance;
      }
      LogSysinfo();
      StartSync(far);
    }

    /** timeout_cb */
    method Timeout(far: bool)
      requires Valid() && armed
      modifies this, pm
      ensures late == old(late)
      ensures Valid() && syncs == old(syncs)
      ensures old(state) in {Pm, Sync} ==>
        && state == old(state) && !armed && info == old(info) && records == old(records)
        && SameRound(old(pm[..]), old(tuned), old(rounds))
      ensures old(state) == Read ==> records == old(records) && WentOn(old(pm[..]), old(tuned), old(rounds), far)
      ensures old(state) == Rach && old(rachCount) + 1 < rachMax ==>
        && state == Rach && rachCount == old(rachCount) + 1 && info == old(info) && records == old(records)
        && SameRound(old(pm[..]), old(tuned), old(rounds))
      ensures old(state) == Rach && old(rachCount) + 1 == rachMax ==>
        && records == old(records) + [Record(old(info), old(ta), syncs)]
        && WentOn(old(pm[..]), old(tuned), old(rounds), far)
    {
      armed := false;
      if state == Read {
        StartSync(far);
      } else if state == Rach {
        rachCount := rachCount + 1;
        StartRach(far);
      }
    }
  }

  lemma NotTunedYet(pm: seq<Cell>, tuned: seq<nat>, a: nat)
    requires InRound(pm, tuned) && a < |pm| && Candidate(pm[a])
    ensures a !in tuned
  {}

  /**
    An announcement that comes too late: while requests are under way a new SI2 announces SI2bis,
    and then the answer to a request comes. The record has no SI2bis.
   */
  method AnnouncedTooLate(s: Scan, msg: seq<nat>, ta: nat)
    requires s.Valid() && s.state == Rach && s.News(SI2, msg) && SI2bis !in s.info.got
    modifies s, s.pm
    ensures s.Valid() && |s.records| == old(|s.records|) + 1
    ensures var i := s.records[|s.records| - 1].info; i.extended && SI2bis !in i.got
  {
    hide Fresh, RoundOk;
    s.Bcch(SI2, msg, true, false, false);
    s.Assigned(true, Some(ta), false);
  }
}
