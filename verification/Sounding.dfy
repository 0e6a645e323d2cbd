/**
 Beamforming sounding: in every period the access point sounds each listed
 single-user beamformee in turn, then the multi-user group, driven by timers,
 firmware reports and queued commands. The handler and the sounding-down
 routine call each other directly when an entry only has to be deleted.

 Handlers run one at a time. What the hardware layer and the traffic statistics
 do to entries is an event of its own; frame transmission does not touch the
 state modelled here.
 */
module Sounding {

  import opened Octets
  import opened SoundingLists

  class Beamforming {
    var bfee: seq<Bfee>
    var suList: seq<nat>
    var muList: seq<nat>
    var phase: Phase
    var suCur: nat
    var candidateMu: nat
    var minPeriod: nat
    var suCnt: Byte
    var muCnt: Byte
    var running: int
    var waitCnt: nat
    var delay: nat
    var queue: seq<Command>

    /** Single-user entries sounded since the period began, and whether a station entered meanwhile. */
    ghost var sounded: seq<nat>
    ghost var entered: bool
    /** The events so far. */
    ghost var past: seq<Event>

    /** The lists name entries; single-user slots differ and are not multi-user candidates. */
    ghost predicate ListsOk()
      reads this
    {
      && |bfee| == ENTRIES && |suList| == MAX_SU && |muList| == MAX_MU && candidateMu <= MAX_MU
      && (suList[0] < ENTRIES ==> suList[0] != suList[1])
      && (forall k :: 0 <= k < candidateMu ==> muList[k] < ENTRIES && muList[k] !in suList)
    }

    /** While a single-user sounding is under way its entry exists and has not timed out. */
    ghost predicate CurrentOk()
      reads this
    {
      phase.SuStart? ==> suCur < |bfee| && !bfee[suCur].soundingTimeout
    }

    /** Exactly the listed entries with the flag set have been sounded in this period, each once. */
    ghost predicate PeriodOk()
      reads this
    {
      !entered ==>
        && Distinct(sounded)
        && (forall k :: k in sounded ==> k < |bfee| && k in suList)
        && (forall k :: k in suList && k < |bfee| ==> (bfee[k].sounding <==> k in sounded))
    }

    /** Every station has a period of 40; as long as sounding is on or can be switched on, so is the least one. */
    ghost predicate DivisorOk()
      reads this
    {
      && (forall k :: 0 <= k < |bfee| && bfee[k].used ==> bfee[k].soundPeriod == SOUND_PERIOD)
      && minPeriod in {0, SOUND_PERIOD}
      && (!phase.Off? || suCnt > 0 || muCnt > 0 ==> minPeriod > 0)
    }

    ghost predicate Valid()
      reads this
    {
      ListsOk() && CurrentOk() && PeriodOk() && DivisorOk() && -128 <= running < 128
    }

    /** sounding_running stands for the start command in the queue or the sounding under way. */
    ghost predicate Accounted()
      reads `queue, `phase, `running
    {
      Starts(queue) + (if Busy(phase) then 1 else 0) <= running <= 1
    }

    /** A late tick is about to stop a period whose start command still waits in the queue. */
    ghost predicate Overtakes(e: Event)
      reads `queue, `phase, `running, `delay
    {
      e.Timer? && !phase.Off? && !Busy(phase) && running != 0 && delay >= 3 && StartPeriod in queue
    }

    predicate Unsounded(k: nat)
      requires k < |suList|
      reads `bfee, `suList
    {
      Waits(bfee, suList, k)
    }

    /** Listed single-user entries not sounded yet: the measure of the mutual recursion. */
    function Pending(): (n: nat)
      requires |suList| == MAX_SU
      reads `bfee, `suList
      ensures n <= MAX_SU
    {
      (if Unsounded(0) then 1 else 0) + (if Unsounded(1) then 1 else 0)
    }

    /** rtw_bf_init, on zeroed memory. */
    constructor ()
      ensures Valid() && Accounted() && phase == Off && running == 0 && waitCnt == 0 && delay == 0 && queue == []
      ensures suCnt == 0 == muCnt && bfee == seq(ENTRIES, _ => EMPTY) && past == []
    {
      bfee := seq(ENTRIES, _ => EMPTY);
      suList, muList := seq(MAX_SU, _ => NO_ENTRY), seq(MAX_MU, _ => NO_ENTRY);
      phase, suCur, candidateMu, minPeriod, suCnt, muCnt := Off, NO_ENTRY, 0, 0, 0, 0;
      running, waitCnt, delay, queue := 0, 0, 0, [];
      sounded, entered, past := [], false, [];
    }

    /** _sounding_reset_vars. */
    method ResetVars()
      requires |bfee| == ENTRIES
      modifies `bfee, `suList, `muList, `suCur, `candidateMu, `sounded, `entered
      ensures suList == Padded([], MAX_SU) && muList == Padded([], MAX_MU) && suCur == NO_ENTRY && candidateMu == 0
      ensures sounded == [] && !entered && |bfee| == ENTRIES
      ensures forall i :: 0 <= i < ENTRIES ==>
                bfee[i] == var b := old(bfee)[i];
                           if b.used && b.sounding then b.(sounding := false, candidate := false) else b
    {
      suList, muList := Padded([], MAX_SU), Padded([], MAX_MU);
      suCur, candidateMu := NO_ENTRY, 0;
      sounded, entered := [], false;
      var idx := 0;
      while idx < ENTRIES
        modifies `bfee
        invariant idx <= ENTRIES == |bfee|
        invariant forall i :: 0 <= i < ENTRIES ==>
                    bfee[i] == var b := old(bfee)[i];
                               if i < idx && b.used && b.sounding then b.(sounding := false, candidate := false) else b
      {
        if bfee[idx].used && bfee[idx].sounding {
          bfee := bfee[idx := bfee[idx].(sounding := false, candidate := false)];
        }
        idx := idx + 1;
      }
    }

    /** _sounding_get_list: 0 when there is something to sound, -2 when only entries that are not ready, else -1. */
    method GetList() returns (ret: int)
      requires |bfee| == ENTRIES && suList == Padded([], MAX_SU) && muList == Padded([], MAX_MU) && minPeriod > 0
      modifies `bfee, `suList, `muList, `candidateMu
      ensures |bfee| == ENTRIES
      ensures suList == Padded(SuUpTo(old(bfee), ENTRIES), MAX_SU)
      ensures muList == Padded(MuUpTo(old(bfee), ENTRIES), MAX_MU) && candidateMu == |MuUpTo(old(bfee), ENTRIES)|
      ensures forall k :: 0 <= k < ENTRIES ==>
                bfee[k] == Counted(old(bfee)[k], Candidate(old(bfee), k), minPeriod)
      ensures forall k :: 0 <= k < ENTRIES ==>
                var e := old(bfee)[k];
                && (k in suList <==> && e.used && e.added && !e.muCap && e.suCap && e.soundCnt <= 1
                                     && (e.deleteSounding || (e.applySounding && !e.suspendSu))
                                     && |Below(suList, k)| < 2)
                && (k in muList <==> && e.used && e.added && e.muCap && e.soundCnt <= 1 && e.applySounding
                                     && |Below(muList, k)| < 6)
      ensures forall k :: 0 <= k < ENTRIES ==>
                var e, r := old(bfee)[k], bfee[k];
                var listed := k in muList || (k in suList && !e.deleteSounding);
                && r == e.(candidate := r.candidate, soundCnt := r.soundCnt)
                && (r.candidate <==> e.candidate || listed)
                && r.soundCnt == if !e.used || !e.added then e.soundCnt
                                 else if listed then (e.soundPeriod / minPeriod) % 256
                                 else if e.soundCnt == 0 then 0 else e.soundCnt - 1
      ensures ret == if HasWork(old(bfee)) then 0 else if HasUnready(old(bfee)) then -2 else -1
      ensures ret < 0 ==> (ret == -2 <==> exists k :: 0 <= k < ENTRIES && old(bfee)[k].used && !old(bfee)[k].added)
    {
      ghost var b := bfee;
      var su, mu: seq<nat> := [], [];
      var notReady := 0;
      var i := 0;
      while i < ENTRIES
        modifies `bfee
        invariant i <= ENTRIES && Listing(b, i, su, mu)
        invariant notReady >= 0 && (notReady > 0 <==> exists k :: 0 <= k < i && b[k].used && !b[k].added)
      {
        if bfee[i].used && !bfee[i].added {
          notReady := notReady + 1;
        }
        su, mu := ListOne(b, i, su, mu);
        i := i + 1;
      }
      suList, muList, candidateMu := Padded(su, MAX_SU), Padded(mu, MAX_MU), |mu|;
      ListedByFields(b);
      forall k | 0 <= k < ENTRIES ensures Candidate(b, k) <==> k in muList || (k in suList && !b[k].deleteSounding) {
        PaddedMembers(su, MAX_SU, k);
        PaddedMembers(mu, MAX_MU, k);
      }
      forall k | 0 <= k < ENTRIES {
        CountedFields(b[k], Candidate(b, k), minPeriod);
      }
      ret := if |su| + |mu| > 0 then 0 else if notReady > 0 then -2 else -1;
    }

    /** The first i of the entries b have been visited. */
    ghost predicate Listing(b: seq<Bfee>, i: nat, su: seq<nat>, mu: seq<nat>)
      reads `bfee, `minPeriod
    {
      && i <= ENTRIES == |b| == |bfee| && minPeriod > 0
      && su == SuUpTo(b, i) && mu == MuUpTo(b, i)
      && (forall k :: i <= k < ENTRIES ==> bfee[k] == b[k])
      && forall k :: 0 <= k < i ==> bfee[k] == Counted(b[k], k in mu || (k in su && !b[k].deleteSounding), minPeriod)
    }

    method ListOne(ghost b: seq<Bfee>, i: nat, su: seq<nat>, mu: seq<nat>) returns (su': seq<nat>, mu': seq<nat>)
      requires i < ENTRIES && Listing(b, i, su, mu)
      modifies `bfee
      ensures Listing(b, i + 1, su', mu')
    {
      var e, toSu, toMu := Visit(bfee[i], |su|, |mu|, InitSoundCnt(bfee[i].soundPeriod, minPeriod));
      assert i !in su && i !in mu;
      bfee := bfee[i := e];
      su', mu' := su, mu;
      if toSu {
        su' := su + [i];
      }
      if toMu {
        mu' := mu + [i];
      }
    }

    /** The loop body of _sounding_get_list for one entry, with su and mu entries listed so far. */
    method Visit(b: Bfee, su: nat, mu: nat, reload: nat) returns (e: Bfee, toSu: bool, toMu: bool)
      requires su <= MAX_SU && mu <= MAX_MU
      ensures toSu <==> su < MAX_SU && WantsSu(b)
      ensures toMu <==> mu < MAX_MU && WantsMu(b)
      ensures e == Reloaded(b, toMu || (toSu && !b.deleteSounding), reload)
    {
      e, toSu, toMu := b, false, false;
      if !e.used || !e.added {
        return;
      }
      if e.soundCnt > 0 {
        e := e.(soundCnt := e.soundCnt - 1);
        if e.soundCnt > 0 {
          return;
        }
      }
      e, toSu, toMu := VisitDue(e, su, mu, reload);
    }

    /** Its second half: a ready entry whose count has run out. */
    method VisitDue(b: Bfee, su: nat, mu: nat, reload: nat) returns (e: Bfee, toSu: bool, toMu: bool)
      requires su <= MAX_SU && mu <= MAX_MU && Ready(b) && b.soundCnt == 0
      ensures toSu <==> su < MAX_SU && WantsSu(b)
      ensures toMu <==> mu < MAX_MU && WantsMu(b)
      ensures e == if toMu || (toSu && !b.deleteSounding) then b.(candidate := true, soundCnt := reload) else b
    {
      e, toSu, toMu := b, false, false;
      if e.muCap {
        if mu < MAX_MU && e.applySounding {
          e := e.(candidate := true, soundCnt := reload);
          toMu := true;
        }
      } else if e.suCap && su < MAX_SU {
        if e.deleteSounding {
          toSu := true;
        } else if e.applySounding && !e.suspendSu {
          e := e.(candidate := true, soundCnt := reload);
          toSu := true;
        }
      }
    }

    /** Clears the previous period and lists this one's entries. */
    method ListPeriod() returns (ret: int)
      requires Valid() && phase.Init?
      modifies `bfee, `suList, `muList, `suCur, `candidateMu, `sounded, `entered
      ensures Valid() && sounded == [] && !entered
      ensures suList == Padded(SuUpTo(old(bfee), ENTRIES), MAX_SU)
      ensures candidateMu <= |muList| && muList[..candidateMu] == MuUpTo(old(bfee), ENTRIES)
      ensures bfee == Opening(old(bfee), minPeriod)
      ensures ret == if HasWork(old(bfee)) then 0 else if HasUnready(old(bfee)) then -2 else -1
      ensures HasUnready(bfee) == HasUnready(old(bfee))
    {
      ghost var b := bfee;
      ResetVars();
      SameWants(b, bfee, ENTRIES);
      ghost var c := bfee;
      ret := ListAll();
      OpeningIs(b, c, bfee, minPeriod);
    }

    /** Lists the entries of a period in which nobody has been sounded yet. */
    method ListAll() returns (ret: int)
      requires |bfee| == ENTRIES && suList == Padded([], MAX_SU) && muList == Padded([], MAX_MU) && sounded == []
      requires DivisorOk() && phase.Init? && -128 <= running < 128
      requires forall k :: 0 <= k < ENTRIES && bfee[k].used ==> !bfee[k].sounding
      modifies `bfee, `suList, `muList, `candidateMu
      ensures Valid()
      ensures suList == Padded(SuUpTo(old(bfee), ENTRIES), MAX_SU)
      ensures candidateMu <= |muList| && muList[..candidateMu] == MuUpTo(old(bfee), ENTRIES)
      ensures forall k :: 0 <= k < ENTRIES ==>
                bfee[k] == Counted(old(bfee)[k], Candidate(old(bfee), k), minPeriod)
      ensures ret == if HasWork(old(bfee)) then 0 else if HasUnready(old(bfee)) then -2 else -1
      ensures HasUnready(bfee) == HasUnready(old(bfee))
    {
      ListsFit(bfee);
      ret := GetList();
    }

    /** The part of _sounding_handler that opens a period; `go` when the period can start. */
    method Prepare(scanning: bool) returns (go: bool)
      requires Valid() && phase.Init?
      modifies this
      ensures Valid() && queue == old(queue) && Steady()
      ensures sounded == [] && !entered
      ensures suList == Padded(SuUpTo(old(bfee), ENTRIES), MAX_SU)
      ensures candidateMu <= |muList| && muList[..candidateMu] == MuUpTo(old(bfee), ENTRIES)
      ensures bfee == Opening(old(bfee), minPeriod)
      ensures go <==> HasWork(old(bfee)) && !scanning
      ensures phase == if HasWork(old(bfee)) || (HasUnready(old(bfee)) && old(waitCnt) < 5) then Init else Off
      ensures waitCnt == (if phase.Init? && !HasWork(old(bfee)) then old(waitCnt) + 1 else 0)
      ensures HasUnready(bfee) == HasUnready(old(bfee))
      ensures running == if go then old(running) else Less1(old(running))
    {
      var ret := ListPeriod();
      go := Judge(ret, scanning);
    }

    /** What becomes of the period, by the result of listing. */
    method Judge(ret: int, scanning: bool) returns (go: bool)
      requires Valid() && phase.Init? && ret in {0, -1, -2}
      modifies `waitCnt, `phase, `running
      ensures Valid() && (go <==> ret == 0 && !scanning)
      ensures phase == if ret == 0 || (ret == -2 && old(waitCnt) < 5) then Init else Off
      ensures waitCnt == if phase.Init? && ret != 0 then old(waitCnt) + 1 else 0
      ensures running == if go then old(running) else Less1(old(running))
    {
      go := false;
      if ret == -1 {
        waitCnt, phase := 0, Off;
      } else if ret == -2 {
        if waitCnt < 5 {
          waitCnt := waitCnt + 1;
        } else {
          waitCnt, phase := 0, Off;
        }
      } else {
        waitCnt := 0;
        go := !scanning;
      }
      if !go {
        running := Less1(running);
      }
    }

    /** The first slot of the single-user list with an unsounded entry, or MAX_SU. */
    method NextUnsounded() returns (k: nat)
      requires ListsOk()
      ensures k <= MAX_SU && (k < MAX_SU ==> Unsounded(k)) && forall j :: 0 <= j < k ==> !Unsounded(j)
      ensures k == MAX_SU ==> Pending() == 0
    {
      k := 0;
      while k < MAX_SU
        invariant k <= MAX_SU && forall j :: 0 <= j < k ==> !Unsounded(j)
      {
        if suList[k] < ENTRIES && !bfee[suList[k]].sounding {
          return;
        }
        k := k + 1;
      }
    }

    /** Marks the entry in slot k as being sounded. */
    method StartSu(k: nat)
      requires Valid() && !phase.Off? && k < MAX_SU && Unsounded(k)
      modifies `bfee, `phase, `suCur, `sounded
      ensures Valid() && phase == SuStart && suCur == suList[k] && sounded == old(sounded) + [suCur]
      ensures bfee == old(bfee)[suCur := old(bfee)[suCur].(sounding := true, soundingTimeout := false)]
      ensures Pending() < old(Pending())
    {
      suCur := suList[k];
      phase := SuStart;
      bfee := bfee[suCur := bfee[suCur].(sounding := true, soundingTimeout := false)];
      sounded := sounded + [suCur];
    }

    /** Marks the multi-user group as being sounded. */
    method StartMu()
      requires Valid() && !phase.Off?
      modifies `bfee, `phase, `candidateMu
      ensures Valid() && phase == MuStart && candidateMu == 0
      ensures forall k :: 0 <= k < ENTRIES ==>
                bfee[k] == old(bfee)[k].(sounding := old(bfee)[k].sounding || k in muList[..old(candidateMu)])
    {
      phase := MuStart;
      var i := 0;
      while i < candidateMu
        modifies `bfee
        invariant i <= candidateMu && |bfee| == ENTRIES
        invariant forall k :: 0 <= k < ENTRIES ==>
                    bfee[k] == old(bfee)[k].(sounding := old(bfee)[k].sounding || k in muList[..i])
      {
        var e := muList[i];
        assert muList[..i + 1] == muList[..i] + [e];
        bfee := bfee[e := bfee[e].(sounding := true)];
        i := i + 1;
      }
      candidateMu := 0;
    }

    /** What no handler of a sounding changes. */
    twostate predicate Steady()
      reads this
    {
      && delay == old(delay) && minPeriod == old(minPeriod) && suCnt == old(suCnt) && muCnt == old(muCnt)
      && past == old(past)
    }

    /** Entries that have been sounded in the period already stay as they are, but for the one in question. */
    twostate predicate SoundedKept(but: nat)
      requires |old(bfee)| == ENTRIES
      reads `bfee
    {
      && |bfee| == ENTRIES
      && forall k :: 0 <= k < ENTRIES && k != but && old(bfee)[k].sounding ==> bfee[k] == old(bfee)[k]
    }

    /** What one handler or sounding-down call does to the counters and the record of the period. */
    twostate predicate Progress()
      reads `bfee, `suList, `muList, `phase, `suCur, `candidateMu, `minPeriod, `suCnt, `muCnt,
            `running, `waitCnt, `delay, `queue, `sounded, `entered
    {
      && running == (if Busy(phase) then old(running) else Less1(old(running)))
      && (phase.MuStart? ==> |suList| == MAX_SU && Pending() == 0)
      && (phase.SuStart? ==> sounded != [] && suCur == sounded[|sounded| - 1])
      && suList == old(suList) && muList == old(muList) && old(sounded) <= sounded && entered == old(entered)
      && (!Busy(phase) ==> phase == Init && |suList| == MAX_SU && Pending() == 0 && candidateMu == 0)
    }

    /** The period moves on with the entries b: in the lists it had, and as they are. */
    twostate predicate MovesOn(b: seq<Bfee>)
      reads `bfee, `suList, `muList, `phase, `suCur, `candidateMu, `minPeriod, `suCnt, `muCnt,
            `running, `waitCnt, `delay, `queue, `sounded, `entered
    {
      && |bfee| == |b| && old(candidateMu) <= |old(muList)|
      && MovedOn(b, old(suList), old(muList[..candidateMu]), bfee, phase, suCur)
    }

    /** What a handler call in the phase Init does: the period is opened, or given up at once. */
    twostate predicate Opened(scanning: bool)
      requires |old(bfee)| == ENTRIES
      reads `bfee, `suList, `muList, `phase, `suCur, `candidateMu, `minPeriod, `suCnt, `muCnt,
            `running, `waitCnt, `delay, `queue, `sounded, `entered
    {
      && suList == Padded(SuUpTo(old(bfee), ENTRIES), MAX_SU)
      && running == (if Busy(phase) then old(running) else Less1(old(running)))
      && (scanning || !HasWork(old(bfee)) ==>
            && phase == (if HasWork(old(bfee)) || (HasUnready(old(bfee)) && old(waitCnt) < 5) then Init else Off)
            && waitCnt == (if phase.Init? && !HasWork(old(bfee)) then old(waitCnt) + 1 else 0)
            && HasUnready(bfee) == HasUnready(old(bfee)))
      && old(minPeriod) > 0
      && var listed := Opening(old(bfee), old(minPeriod));
         |bfee| == |listed| && if scanning || !HasWork(old(bfee)) then bfee == listed
         else MovedOn(listed, suList, MuUpTo(old(bfee), ENTRIES), bfee, phase, suCur)
    }

    /**
     _sounding_handler. In a phase it does not handle it does nothing. Otherwise it either leaves a
     sounding under way, or ends the period and decrements sounding_running exactly once; a period
     that runs to its end has sounded every listed single-user entry and the multi-user group.
     */
    method Handler(scanning: bool)
      requires Valid()
      modifies this
      ensures Valid() && Steady()
      ensures old(phase) in {Off, SuStart, MuStart} ==> unchanged(this)
      ensures old(phase) in {SuDown, MuDown, TimedOut} ==>
                Progress() && SoundedKept(ENTRIES) && queue == old(queue) && MovesOn(old(bfee))
      ensures old(phase).Init? ==> Opened(scanning) && queue == old(queue)
      decreases if phase.Init? then 1 else 0, Pending(), 2
    {
      if !Handles(phase) {
        return;
      }
      if phase.Init? {
        var go := Prepare(scanning);
        if !go {
          return;
        }
      }
      Advance();
    }

    /** The part of _sounding_handler that moves on within a period. */
    method Advance()
      requires Valid() && Handles(phase)
      modifies this
      ensures Valid() && Steady() && Progress() && SoundedKept(ENTRIES) && queue == old(queue)
      ensures MovesOn(old(bfee))
      decreases 0, Pending(), 1
    {
      var k := NextUnsounded();
      if k < MAX_SU {
        SoundSu(k);
      } else {
        SoundGroup();
      }
    }

    /** Sounds the entry in slot k; one that is to be deleted is done with at once. */
    method SoundSu(k: nat)
      requires Valid() && Handles(phase) && k < MAX_SU && IsFirst(bfee, suList, k)
      modifies this
      ensures Valid() && Steady() && Progress() && SoundedKept(ENTRIES) && queue == old(queue)
      ensures MovesOn(old(bfee))
      decreases 0, Pending(), 0
    {
      ghost var b := bfee;
      StartSu(k);
      if bfee[suCur].deleteSounding {
        PassOver(b, k);
      } else {
        MovedToFirst(b, suList, muList[..candidateMu], k);
      }
    }

    /** The sounding just begun ends at once: its entry is only to be deleted. */
    method PassOver(ghost b: seq<Bfee>, ghost k: nat)
      requires Valid() && phase.SuStart? && IsFirst(b, suList, k) && b[suList[k]].deleteSounding
      requires suCur == suList[k] && bfee == b[suCur := b[suCur].(sounding := true, soundingTimeout := false)]
      modifies this
      ensures Valid() && Steady() && Progress() && SoundedKept(old(suCur)) && queue == old(queue) && MovesOn(b)
      decreases 0, Pending(), 4
    {
      ghost var d, group := bfee, muList[..candidateMu];
      assert suList[k] !in group;
      SoundingDown(false);
      MovedPastDeleted(b, suList, group, k, d, bfee, phase, suCur);
    }

    /** With no single-user entry left, sounds the multi-user group, or ends the period. */
    method SoundGroup()
      requires Valid() && Handles(phase) && Pending() == 0
      modifies this
      ensures Valid() && Steady() && Progress() && SoundedKept(ENTRIES) && queue == old(queue)
      ensures MovesOn(old(bfee))
    {
      ghost var b, group := bfee, muList[..candidateMu];
      if candidateMu > 0 {
        StartMu();
      } else {
        running := Less1(running);
        phase := Init;
      }
      assert !Waits(b, suList, 0) && !Waits(b, suList, 1);
      MovedToGroup(b, suList, group, bfee, suCur);
    }

    /**
     _beamforming_sounding_down. Outside a sounding it does nothing. The time-out test inside never
     succeeds, so it always hands over to the handler, which moves on or ends the period. The current entry
     gets the report, and its station is asked to leave if the report says so; no other sounded entry changes.
     */
    method SoundingDown(status: bool)
      requires Valid()
      modifies this
      ensures Valid() && Steady()
      ensures !Busy(old(phase)) ==> unchanged(this)
      ensures Busy(old(phase)) ==> Progress() && SoundedKept(if old(phase).SuStart? then old(suCur) else ENTRIES)
      ensures Busy(old(phase)) ==>
                MovesOn(Heard(old(bfee), old(phase), old(suCur), status))
      ensures old(phase).SuStart? && old(bfee)[old(suCur)].sounding ==>
                bfee[old(suCur)] == Reported(old(bfee)[old(suCur)], status)
      ensures queue == old(queue) + if old(phase).SuStart? && GivesUp(old(bfee)[old(suCur)], status)
                                    then [Leave(old(bfee)[old(suCur)].mac)] else []
      decreases 0, Pending(), 3
    {
      if phase.MuStart? {
        phase := MuDown;
      } else if phase.SuStart? {
        TakeReport(status);
      } else {
        return;
      }
      Handler(false);
    }

    /** The single-user half of it. */
    method TakeReport(status: bool)
      requires Valid() && phase.SuStart?
      modifies `bfee, `queue, `phase
      ensures Valid() && phase == SuDown && Pending() == old(Pending())
      ensures bfee == old(bfee)[suCur := Reported(old(bfee)[suCur], status)]
      ensures queue == old(queue) + if GivesUp(old(bfee)[suCur], status) then [Leave(old(bfee)[suCur].mac)] else []
    {
      phase := SuDown;
      if bfee[suCur].soundingTimeout {
        assert false;
      }
      ReportStatus(status);
    }

    /** Writes an entry; its sounding flags and its period stay. */
    method Write(k: nat, b: Bfee)
      requires Valid() && k < ENTRIES
      requires b.sounding == bfee[k].sounding && b.soundingTimeout == bfee[k].soundingTimeout
      requires b.soundPeriod == bfee[k].soundPeriod && (b.used ==> bfee[k].used)
      modifies `bfee
      ensures Valid() && Pending() == old(Pending()) && bfee == old(bfee)[k := b]
    {
      bfee := bfee[k := b];
    }

    /** The bookkeeping of a finished single-user sounding. */
    method ReportStatus(status: bool)
      requires Valid() && suCur < ENTRIES
      modifies `bfee, `queue
      ensures Valid() && Pending() == old(Pending()) && Starts(queue) == Starts(old(queue))
      ensures bfee == old(bfee)[suCur := Reported(old(bfee)[suCur], status)]
      ensures queue == old(queue) + if GivesUp(old(bfee)[suCur], status) then [Leave(old(bfee)[suCur].mac)] else []
    {
      var b, leaves := bfee[suCur], false;
      StartsMore(queue, Leave(b.mac));
      if status {
        b := b.(failCnt := 0);
      } else if b.deleteSounding {
        b := b.(deleteSounding := false);
      } else {
        b := b.(failCnt := Next5(b.failCnt));
        leaves := b.failCnt > 30;
      }
      Write(suCur, b);
      if leaves {
        queue := queue + [Leave(b.mac)];
      }
    }

    /** At the end of an undisturbed period, exactly the listed entries have been sounded. */
    lemma PeriodComplete()
      requires Valid() && !entered && Pending() == 0
      ensures forall k :: k in sounded <==> k in suList && k < ENTRIES
      ensures Distinct(sounded)
    {
    }

    /** _sounding_force_stop. */
    method ForceStop()
      requires Valid() && !phase.Off?
      modifies `queue, `running, `phase
      ensures Valid()
      ensures if Busy(old(phase))
              then queue == old(queue) + [EndPeriod(false)] && running == old(running) && phase == old(phase)
              else queue == old(queue) && running == Less1(old(running)) && phase == Init
    {
      if Busy(phase) {
        queue := queue + [EndPeriod(false)];
        return;
      }
      running := Less1(running);
      phase := Init;
    }

    /** What a timer tick does: starts a period, counts a late tick, or stops the period. */
    twostate predicate Ticked()
      reads `queue, `running, `phase, `delay
    {
      && (old(phase).Off? ==>
            phase == Off && running == old(running) && delay == old(delay) && queue == old(queue))
      && (!old(phase).Off? && old(running) == 0 ==>
            phase == Init && running == 1 && delay == 0 && queue == old(queue) + [StartPeriod])
      && (!old(phase).Off? && old(running) != 0 ==>
            && delay == (if old(delay) == 0xFF then 0xFF else old(delay) + 1)
            && (delay <= 3 || Busy(old(phase)) ==> running == old(running) && phase == old(phase))
            && (delay > 3 && !Busy(old(phase)) ==> running == Less1(old(running)) && phase == Init)
            && queue == old(queue) + if delay > 3 && Busy(old(phase)) then [EndPeriod(false)] else [])
    }

    /** _sounding_timer_handler. */
    method TimerTick()
      requires Valid()
      modifies `queue, `running, `phase, `delay
      ensures Valid() && Ticked()
      ensures old(Accounted()) ==> (Accounted() <==> !old(Overtakes(Timer)))
    {
      StartsMore(queue, StartPeriod);
      StartsMore(queue, EndPeriod(false));
      if phase.Off? {
        return;
      }
      if running == 0 {
        phase, delay, running := Init, 0, More1(running);
        queue := queue + [StartPeriod];
      } else {
        if delay != 0xFF {
          delay := delay + 1;
        }
        if delay > 3 {
          ForceStop();
        }
      }
    }

    /** What the time-out timer does: a sounding under way is given up, with the flag on the current entry. */
    twostate predicate GivenUp()
      requires old(phase).SuStart? ==> suCur < |old(bfee)|
      reads `bfee, `phase, `queue, `suCur
    {
      && phase == (if Busy(old(phase)) then TimedOut else old(phase))
      && queue == old(queue) + (if Busy(old(phase)) then [StartPeriod] else [])
      && bfee == if old(phase).SuStart? then old(bfee)[suCur := old(bfee)[suCur].(soundingTimeout := true)]
                 else old(bfee)
    }

    /** _sounding_timeout_timer_handler. */
    method TimeoutTick()
      requires Valid()
      modifies `bfee, `phase, `queue
      ensures Valid() && GivenUp()
      ensures old(Accounted()) ==> Accounted()
    {
      StartsMore(queue, StartPeriod);
      if phase.SuStart? {
        phase := TimedOut;
        bfee := bfee[suCur := bfee[suCur].(soundingTimeout := true)];
      } else if phase.MuStart? {
        phase := TimedOut;
      } else {
        return;
      }
      queue := queue + [StartPeriod];
    }

    // ------------------------------------------------------------ stations

    /** _sounding_init. */
    method Stop()
      requires Valid() && suCnt == 0 == muCnt
      modifies `suList, `muList, `phase, `suCur, `candidateMu, `minPeriod, `sounded
      ensures Valid() && phase == Off && suList == Padded([], MAX_SU) && muList == Padded([], MAX_MU)
      ensures suCur == NO_ENTRY && candidateMu == 0 && minPeriod == 0
    {
      suList, muList := Padded([], MAX_SU), Padded([], MAX_MU);
      phase, suCur, candidateMu, minPeriod := Off, NO_ENTRY, 0, 0;
      sounded := [];
    }

    /** _beamforming_leave; the station may also be a beamformer, which changes nothing here. */
    method LeaveStation(mac: Mac, beamformer: bool)
      requires Valid()
      modifies `bfee, `suList, `muList, `phase, `suCur, `candidateMu, `minPeriod, `sounded, `suCnt, `muCnt
      ensures Valid()
      ensures ByAddr(old(bfee), mac) == ENTRIES && !beamformer ==> unchanged(this)
      ensures ByAddr(old(bfee), mac) == ENTRIES ==> bfee == old(bfee) && suCnt == old(suCnt) && muCnt == old(muCnt)
      ensures var k := ByAddr(old(bfee), mac);
              k < ENTRIES ==>
                && bfee == old(bfee)[k := old(bfee)[k].(added := false)]
                && muCnt == (if bfee[k].muCap then (old(muCnt) + 255) % 256 else old(muCnt))
                && suCnt == (if !bfee[k].muCap && bfee[k].suCap then (old(suCnt) + 255) % 256 else old(suCnt))
      ensures ByAddr(old(bfee), mac) < ENTRIES || beamformer ==>
                phase == if suCnt == 0 == muCnt then Off else old(phase)
    {
      var k := ByAddr(bfee, mac);
      if k == ENTRIES && !beamformer {
        return;
      }
      if k < ENTRIES {
        RemoveEntry(k);
      }
      if suCnt == 0 && muCnt == 0 {
        Stop();
      }
    }

    /** _bfee_remove_entry; the entry stays in use until the hardware layer releases it. */
    method RemoveEntry(k: nat)
      requires Valid() && k < ENTRIES && bfee[k].used
      modifies `bfee, `minPeriod, `suCnt, `muCnt
      ensures Valid() && bfee == old(bfee)[k := old(bfee)[k].(added := false)] && minPeriod == SOUND_PERIOD
      ensures muCnt == if bfee[k].muCap then (old(muCnt) + 255) % 256 else old(muCnt)
      ensures suCnt == if !bfee[k].muCap && bfee[k].suCap then (old(suCnt) + 255) % 256 else old(suCnt)
    {
      Write(k, bfee[k].(added := false));
      if bfee[k].muCap {
        muCnt := Down8(muCnt);
      } else if bfee[k].suCap {
        suCnt := Down8(suCnt);
      }
      var least := 0xFFFF;
      var i := 0;
      while i < ENTRIES
        invariant 0 <= i <= ENTRIES
        invariant least == if exists j :: 0 <= j < i && bfee[j].used then SOUND_PERIOD else 0xFFFF
      {
        if bfee[i].used && bfee[i].soundPeriod < least {
          least := bfee[i].soundPeriod;
        }
        i := i + 1;
      }
      minPeriod := if least == 0xFFFF then 0 else least;
    }

    /** What a station's entering does. */
    twostate predicate TakenIn(mac: Mac, muCap: bool, suCap: bool, suspend: bool, beamformer: bool)
      requires |old(bfee)| == ENTRIES
      reads `bfee, `phase, `suCnt, `muCnt
    {
      var k := SlotFor(old(bfee), mac);
      var added := (muCap || suCap) && k < ENTRIES;
      && (!added ==> bfee == old(bfee) && suCnt == old(suCnt) && muCnt == old(muCnt))
      && (added ==>
            && bfee == old(bfee)[k := NewStation(mac, muCap, suCap, suspend)]
            && muCnt == (if muCap then (old(muCnt) + 1) % 256 else old(muCnt))
            && suCnt == (if muCap then old(suCnt) else (old(suCnt) + 1) % 256))
      && phase == (if old(phase).Off? && (added || beamformer) && (suCnt != 0 || muCnt != 0) then Init
                   else old(phase))
    }

    /**
     _beamforming_enter: a station that is a beamformee, a beamformer or both; the work-around decides
     whether it is suspended.
     */
    method Enter(mac: Mac, muCap: bool, suCap: bool, suspend: bool, beamformer: bool)
      requires Valid()
      modifies `bfee, `phase, `entered, `minPeriod, `suCnt, `muCnt
      ensures Valid()
      ensures TakenIn(mac, muCap, suCap, suspend, beamformer)
    {
      var added := false;
      if muCap || suCap {
        added := AddEntry(mac, muCap, suCap, suspend);
      }
      if !added && !beamformer {
        return;
      }
      if (suCnt != 0 || muCnt != 0) && phase.Off? {
        phase := Init;
      }
    }

    /** _bfee_add_entry; no entry may be free. */
    method AddEntry(mac: Mac, muCap: bool, suCap: bool, suspend: bool) returns (added: bool)
      requires Valid() && (muCap || suCap)
      modifies `bfee, `entered, `minPeriod, `suCnt, `muCnt
      ensures Valid() && added == (SlotFor(old(bfee), mac) < ENTRIES)
      ensures !added ==> bfee == old(bfee) && suCnt == old(suCnt) && muCnt == old(muCnt)
      ensures added ==>
                && bfee == old(bfee)[SlotFor(old(bfee), mac) := NewStation(mac, muCap, suCap, suspend)]
                && muCnt == (if muCap then (old(muCnt) + 1) % 256 else old(muCnt))
                && suCnt == (if muCap then old(suCnt) else (old(suCnt) + 1) % 256)
    {
      var k := SlotFor(bfee, mac);
      added := k < ENTRIES;
      if !added {
        return;
      }
      if minPeriod == 0 || SOUND_PERIOD < minPeriod {
        minPeriod := SOUND_PERIOD;
      }
      bfee := bfee[k := Bfee(true, mac, false, muCap, suCap, true, false, suspend,
                             SOUND_PERIOD, InitSoundCnt(SOUND_PERIOD, minPeriod), false, false, false, 0)];
      entered := true;
      if muCap {
        muCnt := Up8(muCnt);
      } else {
        suCnt := Up8(suCnt);
      }
    }

    /** What the hardware layer, the work-around and the traffic statistics change in an entry; `wake` is set_timer. */
    method Adjust(i: nat, b: Bfee, wake: bool)
      requires Valid() && i < ENTRIES
      modifies `bfee, `phase
      ensures Valid() && phase == if old(phase).Off? && wake && suCnt + muCnt !in {0, 256} then Init else old(phase)
      ensures bfee == old(bfee)[i := Rewritten(old(bfee)[i], b)]
    {
      Write(i, Rewritten(bfee[i], b));
      if phase.Off? && wake && suCnt + muCnt !in {0, 256} {
        phase := Init;
      }
    }

    // ------------------------------------------------------------ runs

    /** What the next queued command does, by phase. */
    twostate predicate Processed(scanning: bool)
      requires old(queue) != [] && old(Valid())
      reads `bfee, `suList, `muList, `phase, `suCur, `candidateMu, `minPeriod, `suCnt, `muCnt,
            `running, `waitCnt, `delay, `queue, `sounded, `entered
    {
      match old(queue)[0]
      case StartPeriod =>
        && queue == old(queue)[1..]
        && (old(phase).Init? ==> Opened(scanning))
        && (old(phase) in {SuDown, MuDown, TimedOut} ==> Progress() && MovesOn(old(bfee)))
        && (!Handles(old(phase)) ==> running == old(running) && phase == old(phase) && bfee == old(bfee))
      case EndPeriod(status) =>
        var k := old(suCur);
        && queue == old(queue)[1..] + (if old(phase).SuStart? && GivesUp(old(bfee)[k], status)
                                       then [Leave(old(bfee)[k].mac)] else [])
        && (Busy(old(phase)) ==> Progress() && MovesOn(Heard(old(bfee), old(phase), k, status)))
        && (old(phase).SuStart? && old(bfee)[k].sounding ==>
              |bfee| == ENTRIES && bfee[k] == Reported(old(bfee)[k], status))
        && (!Busy(old(phase)) ==> running == old(running) && phase == old(phase) && bfee == old(bfee))
      case Leave(mac) =>
        var k := ByAddr(old(bfee), mac);
        && queue == old(queue)[1..] && running == old(running) && (phase == old(phase) || phase == Off)
        && bfee == if k < ENTRIES then old(bfee)[k := old(bfee)[k].(added := false)] else old(bfee)
    }

    method TakeStart(scanning: bool)
      requires Valid() && queue != [] && queue[0] == StartPeriod
      modifies this
      ensures Valid() && Steady() && (old(Accounted()) ==> Accounted()) && Processed(scanning)
    {
      StartsRest(queue);
      queue := queue[1..];
      Handler(scanning);
    }

    method TakeEnd()
      requires Valid() && queue != [] && queue[0].EndPeriod?
      modifies this
      ensures Valid() && Steady() && (old(Accounted()) ==> Accounted()) && Processed(false)
    {
      StartsRest(queue);
      ghost var leaves := if phase.SuStart? && GivesUp(bfee[suCur], queue[0].status) then [Leave(bfee[suCur].mac)]
                          else [];
      StartsWith(queue[1..], leaves);
      var status := queue[0].status;
      queue := queue[1..];
      SoundingDown(status);
    }

    method TakeLeave(beamformer: bool)
      requires Valid() && queue != [] && queue[0].Leave?
      modifies this
      ensures Valid() && delay == old(delay) && past == old(past) && (old(Accounted()) ==> Accounted())
      ensures Processed(false)
    {
      StartsRest(queue);
      var mac := queue[0].mac;
      queue := queue[1..];
      LeaveStation(mac, beamformer);
    }

    /** The command thread takes the next queued command. */
    method Process(scanning: bool, beamformer: bool)
      requires Valid() && queue != []
      modifies this
      ensures Valid() && delay == old(delay) && past == old(past)
      ensures old(Accounted()) ==> Accounted()
      ensures Processed(scanning)
    {
      match queue[0] {
        case StartPeriod => TakeStart(scanning);
        case EndPeriod(_) => TakeEnd();
        case Leave(_) => TakeLeave(beamformer);
      }
    }

    /** A command is queued. */
    method Enqueue(c: Command)
      requires Valid() && c != StartPeriod
      modifies `queue
      ensures Valid() && queue == old(queue) + [c] && (Accounted() <==> old(Accounted()))
    {
      StartsMore(queue, c);
      queue := queue + [c];
    }

    /** The command queued last is lost: it could not be allocated. */
    method Lose()
      requires Valid()
      modifies `queue
      ensures Valid() && (old(Accounted()) ==> Accounted())
      ensures queue == if old(queue) == [] then [] else old(queue)[..|old(queue)| - 1]
    {
      if queue != [] {
        StartsMore(queue[..|queue| - 1], queue[|queue| - 1]);
        assert queue == queue[..|queue| - 1] + [queue[|queue| - 1]];
        queue := queue[..|queue| - 1];
      }
    }

    /** What an event does; for a command see `Processed`. */
    twostate predicate Happened(e: Event)
      requires old(Valid()) && !e.Command?
      reads `bfee, `phase, `suCur, `suCnt, `muCnt, `running, `delay, `queue
    {
      match e
      case Timer => Ticked() && bfee == old(bfee)
      case Timeout => suCur == old(suCur) && GivenUp() && running == old(running)
      case Firmware(status) => Queued([EndPeriod(status)])
      case Left(mac) => Queued([Leave(mac)])
      case Lost => queue == (if old(queue) == [] then [] else old(queue)[..|old(queue)| - 1]) && Kept()
      case Entered(mac, muCap, suCap, suspend, beamformer) =>
        TakenIn(mac, muCap, suCap, suspend, beamformer) && queue == old(queue) && running == old(running)
      case Adjusted(i, b, wake) =>
        && queue == old(queue) && running == old(running)
        && bfee == (if i < ENTRIES then old(bfee)[i := Rewritten(old(bfee)[i], b)] else old(bfee))
        && phase == if old(phase).Off? && i < ENTRIES && wake && suCnt + muCnt !in {0, 256} then Init else old(phase)
    }

    twostate predicate Kept()
      reads `bfee, `phase, `running, `suCur
    {
      bfee == old(bfee) && phase == old(phase) && running == old(running) && suCur == old(suCur)
    }

    twostate predicate Queued(cs: seq<Command>)
      reads `bfee, `phase, `running, `suCur, `queue
    {
      queue == old(queue) + cs && Kept()
    }

    /** Events about stations. */
    method StepStation(e: Event)
      requires Valid() && (e.Entered? || e.Adjusted? || e.Left?)
      modifies `bfee, `phase, `entered, `minPeriod, `suCnt, `muCnt, `queue
      ensures Valid() && (old(Accounted()) ==> Accounted()) && Happened(e)
    {
      match e {
        case Entered(mac, muCap, suCap, suspend, beamformer) => Enter(mac, muCap, suCap, suspend, beamformer);
        case Adjusted(i, b, wake) => if i < ENTRIES { Adjust(i, b, wake); }
        case Left(mac) => Enqueue(Leave(mac));
      }
    }

    /** Events of the timers, the firmware and the queue. */
    method StepTimer(e: Event)
      requires Valid() && (e.Timer? || e.Timeout? || e.Firmware? || e.Lost?)
      modifies `bfee, `queue, `running, `phase, `delay
      ensures Valid() && Happened(e)
      ensures old(Accounted()) ==> (Accounted() <==> !old(Overtakes(e)))
    {
      match e {
        case Timer => TimerTick();
        case Timeout => TimeoutTick();
        case Firmware(status) => Enqueue(EndPeriod(status));
        case Lost => Lose();
      }
    }

    method StepCommand(e: Event)
      requires Valid() && e.Command?
      modifies this
      ensures Valid() && past == old(past)
      ensures if old(queue) != [] then Processed(e.scanning) else queue == [] && Kept()
      ensures old(Accounted()) ==> Accounted()
    {
      if queue != [] {
        Process(e.scanning, e.beamformer);
      }
    }

    /** The event is handled by its own handler. */
    method Dispatch(e: Event)
      requires Valid()
      modifies this
      ensures Valid() && past == old(past) && (e.Command? || Happened(e))
      ensures e.Command? ==> if old(queue) != [] then Processed(e.scanning) else queue == [] && Kept()
      ensures old(Accounted()) ==> (Accounted() <==> !old(Overtakes(e)))
    {
      match e {
        case Command(_, _) => StepCommand(e);
        case Entered(_, _, _, _, _) => StepStation(e);
        case Adjusted(_, _, _) => StepStation(e);
        case Left(_) => StepStation(e);
        case _ => StepTimer(e);
      }
    }

    /**
     One event of any thread. The counter stays accounted for by a start command or a sounding
     exactly unless a late tick overtakes a start command still in the queue.
     */
    method Step(e: Event)
      requires Valid()
      modifies this
      ensures Valid() && past == old(past) + [e] && (e.Command? || Happened(e))
      ensures old(Accounted()) ==> (Accounted() <==> !old(Overtakes(e)))
    {
      Dispatch(e);
      past := past + [e];
    }

    /**
     Every run of timers, reports, commands and stations: the current index of a sounding under way
     is an entry whose time-out flag is clear, no single-user entry is sounded twice in a period
     unless a station entered during it, and no period length is divided by zero.
     */
    method Run(events: seq<Event>)
      requires Valid()
      modifies this
      ensures Valid() && past == old(past) + events
      ensures phase.SuStart? ==> suCur < ENTRIES && !bfee[suCur].soundingTimeout
      ensures !entered ==> Distinct(sounded)
      ensures phase.Init? ==> minPeriod > 0
    {
      var n := 0;
      while n < |events|
        invariant Valid() && n <= |events| && past == old(past) + events[..n]
      {
        Step(events[n]);
        n := n + 1;
      }
    }

    /**
     Every run up to the first overtaking tick: the counter is 0 or 1, and it is 1 while a start
     command waits or a sounding is under way.
     */
    method RunAccounted(events: seq<Event>) returns (done: nat)
      requires Valid() && Accounted()
      modifies this
      ensures Valid() && 0 <= running <= 1
      ensures Busy(phase) || StartPeriod in queue ==> running == 1
      ensures Starts(queue) <= 1 && (Busy(phase) ==> StartPeriod !in queue)
      ensures done <= |events| && (done < |events| ==> Overtakes(events[done]))
      ensures past == old(past) + events[..done]
    {
      done := 0;
      while done < |events|
        modifies this
        invariant Valid() && Accounted() && done <= |events| && past == old(past) + events[..done]
      {
        if events[done].Timer? && !phase.Off? && !Busy(phase) && running != 0 && delay >= 3 && StartPeriod in queue {
          return;
        }
        Step(events[done]);
        done := done + 1;
      }
    }
  }

  /** The part of an entry that the hardware layer, the work-around and the traffic statistics write. */
  function Rewritten(b: Bfee, a: Bfee): Bfee {
    b.(used := b.used && a.used, added := a.added, applySounding := a.applySounding,
       deleteSounding := a.deleteSounding, suspendSu := a.suspendSu, soundCnt := a.soundCnt)
  }

  /** The entry of a station that has just entered. */
  function NewStation(mac: Mac, muCap: bool, suCap: bool, suspend: bool): (b: Bfee)
    ensures b.used && b.mac == mac && !b.added && b.muCap == muCap && b.suCap == suCap
    ensures b.applySounding && !b.deleteSounding && b.suspendSu == suspend && b.failCnt == 0
    ensures b.soundPeriod == 40 && b.soundCnt == 1 && !b.candidate && !b.sounding && !b.soundingTimeout
  {
    EMPTY.(used := true, mac := mac, muCap := muCap, suCap := suCap, applySounding := true,
           suspendSu := suspend, soundPeriod := SOUND_PERIOD, soundCnt := 1)
  }

  /** What can happen next, from whichever thread. */
  datatype Event =
    | Timer
    | Timeout
    | Firmware(status: bool)
    | Command(scanning: bool, beamformer: bool)
    | Entered(mac: Mac, muCap: bool, suCap: bool, suspend: bool, beamformer: bool)
    | Adjusted(entry: nat, bfee: Bfee, wake: bool)
    | Left(mac: Mac)
    | Lost  // the command queued last could not be allocated

  // ------------------------------------------------- when the counter goes wrong

  /**
   An overtaking tick can always be followed by a negative counter, without any further tick: the
   overtaken start command gives back the count that the tick has given back already.
   */
  method OvertakenUnderflows(bf: Beamforming)
    requires bf.Valid() && bf.Accounted() && bf.Overtakes(Timer)
    modifies bf
    ensures bf.Valid() && bf.running == -1
  {
    bf.TimerTick();
    while bf.queue[0] != StartPeriod
      invariant bf.Valid() && bf.running == 0 && StartPeriod in bf.queue && bf.phase in {Off, Init}
      decreases |bf.queue|
    {
      assert bf.queue == [bf.queue[0]] + bf.queue[1..];
      bf.Process(true, false);
    }
    if bf.phase.Off? {
      Reenter(bf);
    }
    bf.Process(true, false);
  }

  /** A station enters in the place of entry 0. */
  method Reenter(bf: Beamforming)
    requires bf.Valid() && bf.phase == Off
    modifies bf`bfee, bf`phase, bf`entered, bf`minPeriod, bf`suCnt, bf`muCnt
    ensures bf.Valid() && bf.phase == Init
  {
    var mac := bf.bfee[0].mac;
    bf.Adjust(0, EMPTY, false);
    bf.Enter(mac, false, true, false, false);
    if bf.phase.Off? {
      bf.Enter(mac, false, true, false, false);
    }
  }

  /** Timer ticks alone, with the command worker held up: two start commands for one count, at the sixth tick. */
  method SixTicks(bf: Beamforming)
    requires bf.Valid() && bf.phase == Init && bf.running == 0 && bf.delay == 0 && bf.queue == []
    modifies bf`queue, bf`running, bf`phase, bf`delay
    ensures bf.Valid() && bf.queue == [StartPeriod, StartPeriod] && bf.running == 1 && bf.phase == Init
  {
    bf.TimerTick();
    var ticks := TicksUntilZero(bf);
    assert ticks == 4;
    bf.TimerTick();
  }

  /** The driver has started and one single-user beamformee has entered; the hardware layer has not added it yet. */
  method OneStation(mac: Mac) returns (bf: Beamforming)
    ensures fresh(bf) && bf.Valid() && bf.phase == Init && bf.running == 0 && bf.waitCnt == 0 && bf.delay == 0
    ensures bf.queue == [] && HasUnready(bf.bfee)
  {
    bf := new Beamforming();
    assert !bf.bfee[0].used;
    bf.Enter(mac, false, true, false, false);
    assert bf.bfee[0].used && !bf.bfee[0].added;
  }

  /** A start command is taken during a scan, while the hardware layer has still to add an entry. */
  method StartInScan(bf: Beamforming)
    requires bf.Valid() && bf.phase == Init && HasUnready(bf.bfee) && bf.waitCnt < 5
    requires bf.queue != [] && bf.queue[0] == StartPeriod
    modifies bf
    ensures bf.Valid() && bf.phase == Init && HasUnready(bf.bfee) && bf.waitCnt <= old(bf.waitCnt) + 1
    ensures bf.running == Less1(old(bf.running)) && bf.queue == old(bf.queue)[1..]
  {
    bf.Process(true, false);
  }

  /**
   A run from the driver's start that makes the counter negative: one station enters, the command
   worker is held up for six ticks, and the two start commands are then taken during a scan.
   */
  method StaleStartUnderflows(mac: Mac) returns (bf: Beamforming)
    ensures fresh(bf) && bf.Valid() && bf.running == -1 && bf.phase == Init && bf.queue == []
  {
    bf := OneStation(mac);
    SixTicks(bf);
    StartInScan(bf);
    StartInScan(bf);
  }

  /**
   Ticks alone repair the counter, the long way round: nothing is started until it has been lowered
   to zero, from a negative value through -128 and 127, and the tick after that starts a period.
   */
  method TicksUntilZero(bf: Beamforming) returns (ticks: nat)
    requires bf.Valid() && !bf.phase.Off? && !Busy(bf.phase) && bf.running != 0 && bf.delay <= 0xFF
    modifies bf`queue, bf`running, bf`phase, bf`delay
    ensures bf.Valid() && bf.running == 0 && bf.phase == Init && bf.queue == old(bf.queue)
    ensures ticks == StepsToZero(old(bf.running)) + if old(bf.delay) < 3 then 3 - old(bf.delay) else 0
  {
    ticks := 0;
    while bf.running != 0
      modifies bf`queue, bf`running, bf`phase, bf`delay
      invariant bf.Valid() && !bf.phase.Off? && !Busy(bf.phase) && bf.delay <= 0xFF && bf.queue == old(bf.queue)
      invariant bf.running == 0 ==> bf.phase == Init
      invariant ticks + StepsToZero(bf.running) + (if bf.running != 0 && bf.delay < 3 then 3 - bf.delay else 0)
                == StepsToZero(old(bf.running)) + if old(bf.delay) < 3 then 3 - old(bf.delay) else 0
      decreases StepsToZero(bf.running), if bf.delay < 3 then 3 - bf.delay else 0
    {
      bf.TimerTick();
      ticks := ticks + 1;
    }
  }
}
