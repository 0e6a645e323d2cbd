/**
 The values of the sounding state machine: beamformee entries, who is listed in
 a period, what a report does to an entry, and the driver's small counters.
 */
module SoundingLists {

  import opened Octets

  const ENTRIES: nat := 8
  const MAX_SU: nat := 2
  const MAX_MU: nat := 6
  /** The 0xFF that fills unused list slots. */
  const NO_ENTRY: nat := 0xFF
  /** sound_period of every beamformee. */
  const SOUND_PERIOD: nat := 40

  datatype Phase = Off | Init | SuStart | SuDown | MuStart | MuDown | TimedOut

  type Mac = nat

  /** A beamformee entry; `added` is the hardware state BEAMFORM_ENTRY_HW_STATE_ADDED. */
  datatype Bfee = Bfee(
    used: bool, mac: Mac, added: bool, muCap: bool, suCap: bool,
    applySounding: bool, deleteSounding: bool, suspendSu: bool,
    soundPeriod: nat, soundCnt: nat,
    candidate: bool, sounding: bool, soundingTimeout: bool, failCnt: nat)

  /** Entries live in memory that is zeroed when it is allocated. */
  const EMPTY := Bfee(false, 0, false, false, false, false, false, false, 0, 0, false, false, false, 0)

  datatype Command = StartPeriod | EndPeriod(status: bool) | Leave(mac: Mac)

  // ------------------------------------------------------- who is listed

  predicate Ready(b: Bfee) {
    b.used && b.added
  }

  /** The countdown of a ready entry reaches zero in this period. */
  predicate Due(b: Bfee) {
    Ready(b) && b.soundCnt <= 1
  }

  predicate WantsMu(b: Bfee) {
    Due(b) && b.muCap && b.applySounding
  }

  predicate WantsSu(b: Bfee) {
    Due(b) && !b.muCap && b.suCap && (b.deleteSounding || (b.applySounding && !b.suspendSu))
  }

  /** The first MAX_SU entries below i that want a single-user sounding. */
  function SuUpTo(b: seq<Bfee>, i: nat): (l: seq<nat>)
    requires i <= |b|
    ensures |l| <= MAX_SU && forall k :: k in l ==> k < i
  {
    if i == 0 then []
    else
      var l := SuUpTo(b, i - 1);
      if |l| < MAX_SU && WantsSu(b[i - 1]) then l + [i - 1] else l
  }

  /** The first MAX_MU entries below i that want a multi-user sounding. */
  function MuUpTo(b: seq<Bfee>, i: nat): (l: seq<nat>)
    requires i <= |b|
    ensures |l| <= MAX_MU && forall k :: k in l ==> k < i
  {
    if i == 0 then []
    else
      var l := MuUpTo(b, i - 1);
      if |l| < MAX_MU && WantsMu(b[i - 1]) then l + [i - 1] else l
  }

  /** Listed entries want it, come in order, and nobody is passed over while there is room. */
  lemma {:induction false} SuListed(b: seq<Bfee>, i: nat)
    requires i <= |b|
    ensures var l := SuUpTo(b, i);
            && (forall k :: k in l ==> k < i && WantsSu(b[k]))
            && (forall j, k :: 0 <= j < k < |l| ==> l[j] < l[k])
            && (|l| < MAX_SU ==> forall k :: 0 <= k < i && WantsSu(b[k]) ==> k in l)
  {
    if i > 0 {
      SuListed(b, i - 1);
      var l := SuUpTo(b, i - 1);
      assert forall j :: 0 <= j < |l| ==> l[j] in l;
    }
  }

  lemma {:induction false} MuListed(b: seq<Bfee>, i: nat)
    requires i <= |b|
    ensures var l := MuUpTo(b, i);
            && (forall k :: k in l ==> k < i && WantsMu(b[k]))
            && (|l| < MAX_MU ==> forall k :: 0 <= k < i && WantsMu(b[k]) ==> k in l)
  {
    if i > 0 {
      MuListed(b, i - 1);
    }
  }

  /** An entry is listed or not by the time the next one is looked at. */
  lemma {:induction false} SuSettled(b: seq<Bfee>, n: nat, k: nat)
    requires k < n <= |b|
    ensures k in SuUpTo(b, n) <==> WantsSu(b[k]) && |SuUpTo(b, k)| < MAX_SU
    decreases n
  {
    if k < n - 1 {
      SuSettled(b, n - 1, k);
    }
  }

  lemma {:induction false} MuSettled(b: seq<Bfee>, n: nat, k: nat)
    requires k < n <= |b|
    ensures k in MuUpTo(b, n) <==> WantsMu(b[k]) && |MuUpTo(b, k)| < MAX_MU
    decreases n
  {
    if k < n - 1 {
      MuSettled(b, n - 1, k);
    }
  }

  /** The members of a list below k. */
  function Below(l: seq<nat>, k: nat): set<nat> {
    set j | 0 <= j < k && j in l
  }

  lemma NothingBelow(l: seq<nat>)
    ensures Below(l, 0) == {}
  {
  }

  lemma BelowNext(l: seq<nat>, k: nat)
    ensures |Below(l, k + 1)| == |Below(l, k)| + if k in l then 1 else 0
  {
    if k in l {
      assert Below(l, k + 1) == Below(l, k) + {k};
    } else {
      assert Below(l, k + 1) == Below(l, k);
    }
  }

  /** Counts that start at zero and step up at the members count the members below. */
  lemma {:induction false} CountsMembers(l: seq<nat>, counts: seq<nat>, k: nat)
    requires k < |counts| && counts[0] == 0
    requires forall j: nat :: j < |counts| - 1 ==> counts[j + 1] == counts[j] + if j in l then 1 else 0
    ensures |Below(l, k)| == counts[k]
    decreases k
  {
    if k == 0 {
      NothingBelow(l);
    } else {
      CountsMembers(l, counts, k - 1);
      BelowNext(l, k - 1);
    }
  }

  lemma SuNext(b: seq<Bfee>, k: nat)
    requires k < |b|
    ensures |SuUpTo(b, k + 1)| == |SuUpTo(b, k)| + if WantsSu(b[k]) && |SuUpTo(b, k)| < MAX_SU then 1 else 0
    ensures SuUpTo(b, 0) == []
  {
  }

  lemma SuBelow(b: seq<Bfee>, n: nat, k: nat)
    requires k <= n <= |b|
    ensures |Below(SuUpTo(b, n), k)| == |SuUpTo(b, k)|
  {
    var l, counts := SuUpTo(b, n), seq(n + 1, j requires 0 <= j <= n => |SuUpTo(b, j)|);
    forall j: nat | j < n ensures counts[j + 1] == counts[j] + if j in l then 1 else 0 {
      SuSettled(b, n, j);
      SuNext(b, j);
    }
    CountsMembers(l, counts, k);
  }

  lemma MuNext(b: seq<Bfee>, k: nat)
    requires k < |b|
    ensures |MuUpTo(b, k + 1)| == |MuUpTo(b, k)| + if WantsMu(b[k]) && |MuUpTo(b, k)| < MAX_MU then 1 else 0
    ensures MuUpTo(b, 0) == []
  {
  }

  lemma MuBelow(b: seq<Bfee>, n: nat, k: nat)
    requires k <= n <= |b|
    ensures |Below(MuUpTo(b, n), k)| == |MuUpTo(b, k)|
  {
    var l, counts := MuUpTo(b, n), seq(n + 1, j requires 0 <= j <= n => |MuUpTo(b, j)|);
    forall j: nat | j < n ensures counts[j + 1] == counts[j] + if j in l then 1 else 0 {
      MuSettled(b, n, j);
      MuNext(b, j);
    }
    CountsMembers(l, counts, k);
  }

  /**
   Who is listed, in the entries' fields: for a single-user sounding exactly an entry in use and added, not
   multi-user but single-user capable, with at most one period left, that is to be deleted or applies and is not
   suspended, unless two entries before it are listed.
   */
  lemma SuListIs(b: seq<Bfee>, k: nat)
    requires k < |b|
    ensures var e, l := b[k], SuUpTo(b, |b|);
            k in l <==> && e.used && e.added && !e.muCap && e.suCap && e.soundCnt <= 1
                        && (e.deleteSounding || (e.applySounding && !e.suspendSu))
                        && |Below(l, k)| < 2
  {
    SuSettled(b, |b|, k);
    SuBelow(b, |b|, k);
  }

  /** And for the multi-user group: added, multi-user capable, with at most one period left, applying; six at most. */
  lemma MuListIs(b: seq<Bfee>, k: nat)
    requires k < |b|
    ensures var e, l := b[k], MuUpTo(b, |b|);
            k in l <==> && e.used && e.added && e.muCap && e.soundCnt <= 1 && e.applySounding
                        && |Below(l, k)| < 6
  {
    MuSettled(b, |b|, k);
    MuBelow(b, |b|, k);
  }

  /** The same for the padded lists of a period. */
  lemma ListedByFields(b: seq<Bfee>)
    requires |b| == ENTRIES
    ensures var su, mu := Padded(SuUpTo(b, ENTRIES), MAX_SU), Padded(MuUpTo(b, ENTRIES), MAX_MU);
            forall k :: 0 <= k < ENTRIES ==>
              && (k in su <==> && b[k].used && b[k].added && !b[k].muCap && b[k].suCap && b[k].soundCnt <= 1
                               && (b[k].deleteSounding || (b[k].applySounding && !b[k].suspendSu))
                               && |Below(su, k)| < 2)
              && (k in mu <==> && b[k].used && b[k].added && b[k].muCap && b[k].soundCnt <= 1 && b[k].applySounding
                               && |Below(mu, k)| < 6)
  {
    forall k | 0 <= k < ENTRIES
      ensures k in Padded(SuUpTo(b, ENTRIES), MAX_SU) <==> k in SuUpTo(b, ENTRIES)
      ensures k in Padded(MuUpTo(b, ENTRIES), MAX_MU) <==> k in MuUpTo(b, ENTRIES)
      ensures Below(Padded(SuUpTo(b, ENTRIES), MAX_SU), k) == Below(SuUpTo(b, ENTRIES), k)
      ensures Below(Padded(MuUpTo(b, ENTRIES), MAX_MU), k) == Below(MuUpTo(b, ENTRIES), k)
    {
      PaddedMembers(SuUpTo(b, ENTRIES), MAX_SU, k);
      PaddedMembers(MuUpTo(b, ENTRIES), MAX_MU, k);
    }
    forall k | 0 <= k < ENTRIES
      ensures k in SuUpTo(b, ENTRIES) <==>
                && b[k].used && b[k].added && !b[k].muCap && b[k].suCap && b[k].soundCnt <= 1
                && (b[k].deleteSounding || (b[k].applySounding && !b[k].suspendSu))
                && |Below(SuUpTo(b, ENTRIES), k)| < 2
      ensures k in MuUpTo(b, ENTRIES) <==>
                && b[k].used && b[k].added && b[k].muCap && b[k].soundCnt <= 1 && b[k].applySounding
                && |Below(MuUpTo(b, ENTRIES), k)| < 6
    {
      SuListIs(b, k);
      MuListIs(b, k);
    }
  }

  lemma PaddedMembers(l: seq<nat>, n: nat, k: nat)
    requires |l| <= n && k < ENTRIES
    ensures k in Padded(l, n) <==> k in l
    ensures Below(Padded(l, n), k) == Below(l, k)
  {
    assert forall j :: 0 <= j < ENTRIES ==> (j in Padded(l, n) <==> j in l);
  }

  /** There is work exactly if somebody is listed. */
  lemma WorkIsListed(b: seq<Bfee>, su: seq<nat>, mu: seq<nat>)
    requires |b| == ENTRIES && su == SuUpTo(b, ENTRIES) && mu == MuUpTo(b, ENTRIES)
    ensures HasWork(b) <==> exists k: nat :: Listed(su, mu, k)
  {
    Nonempty(su);
    Nonempty(mu);
    if k :| k in su {
      assert Listed(su, mu, k);
    } else if k :| k in mu {
      assert Listed(su, mu, k);
    }
  }

  predicate Listed(su: seq<nat>, mu: seq<nat>, k: nat) {
    k in su || k in mu
  }

  lemma Nonempty(l: seq<nat>)
    ensures |l| > 0 <==> exists k :: k in l
  {
    if |l| > 0 {
      assert l[0] in l;
    }
  }

  /** Some entry is used but not yet added to the hardware. */
  ghost predicate HasUnready(b: seq<Bfee>) {
    exists k :: 0 <= k < |b| && b[k].used && !b[k].added
  }

  /** Some entry can be sounded in this period. */
  predicate HasWork(b: seq<Bfee>)
    requires |b| == ENTRIES
  {
    |SuUpTo(b, ENTRIES)| + |MuUpTo(b, ENTRIES)| > 0
  }

  /** Clearing the per-period flags does not change who wants to be sounded. */
  lemma {:induction false} SameWants(b: seq<Bfee>, c: seq<Bfee>, i: nat)
    requires |b| == |c| && i <= |b|
    requires forall k :: 0 <= k < |b| ==> c[k].(sounding := b[k].sounding, candidate := b[k].candidate) == b[k]
    ensures SuUpTo(b, i) == SuUpTo(c, i) && MuUpTo(b, i) == MuUpTo(c, i)
    ensures HasUnready(b) <==> HasUnready(c)
  {
    if i > 0 {
      SameWants(b, c, i - 1);
    }
  }

  /** The two lists name different entries. */
  lemma ListsFit(b: seq<Bfee>)
    requires |b| == ENTRIES
    ensures var su, mu := Padded(SuUpTo(b, ENTRIES), MAX_SU), Padded(MuUpTo(b, ENTRIES), MAX_MU);
            && (su[0] < ENTRIES ==> su[0] != su[1])
            && (forall k :: 0 <= k < |MuUpTo(b, ENTRIES)| ==> mu[k] < ENTRIES && mu[k] !in su)
            && (forall k :: k in su && k < ENTRIES ==> WantsSu(b[k]))
  {
    SuListed(b, ENTRIES);
    MuListed(b, ENTRIES);
    var l := MuUpTo(b, ENTRIES);
    assert forall k :: 0 <= k < |l| ==> l[k] in l;
  }

  /** GetInitSoundCnt, a bare division, stored in an octet. */
  function InitSoundCnt(period: nat, minPeriod: nat): nat
    requires minPeriod > 0
  {
    (period / minPeriod) % 256
  }

  /** What listing does to an entry. */
  function Reloaded(b: Bfee, listed: bool, reload: nat): Bfee {
    if !Ready(b) then b
    else if listed then b.(candidate := true, soundCnt := reload)
    else b.(soundCnt := if b.soundCnt == 0 then 0 else b.soundCnt - 1)
  }

  /** The same, with the count it starts again from. */
  function Counted(b: Bfee, listed: bool, minPeriod: nat): Bfee
    requires minPeriod > 0
  {
    Reloaded(b, listed, InitSoundCnt(b.soundPeriod, minPeriod))
  }

  /** What listing leaves in an entry's fields. */
  lemma CountedFields(b: Bfee, listed: bool, minPeriod: nat)
    requires minPeriod > 0
    ensures var r := Counted(b, listed, minPeriod);
            && r == b.(candidate := r.candidate, soundCnt := r.soundCnt)
            && (r.candidate <==> b.candidate || (b.used && b.added && listed))
            && r.soundCnt == if !b.used || !b.added then b.soundCnt
                             else if listed then (b.soundPeriod / minPeriod) % 256
                             else if b.soundCnt == 0 then 0 else b.soundCnt - 1
  {
  }

  /** An entry after n periods in which it is not listed. */
  function Passed(b: Bfee, n: nat): Bfee {
    if n == 0 then b else Reloaded(Passed(b, n - 1), false, 0)
  }

  /** An entry reloaded with a count is due again that many periods later, or in the next one. */
  lemma {:induction false} DueAfter(b: Bfee, n: nat)
    requires Ready(b)
    ensures Passed(b, n) == b.(soundCnt := if b.soundCnt <= n then 0 else b.soundCnt - n)
    ensures Due(Passed(b, n)) <==> b.soundCnt <= n + 1
  {
    if n > 0 {
      DueAfter(b, n - 1);
    }
  }

  /** Whether entry k of b is listed as a candidate; entries to be deleted are listed without becoming one. */
  predicate Candidate(b: seq<Bfee>, k: nat)
    requires k < |b|
  {
    k in MuUpTo(b, |b|) || (k in SuUpTo(b, |b|) && !b[k].deleteSounding)
  }

  function Padded(l: seq<nat>, n: nat): (p: seq<nat>)
    requires |l| <= n
    ensures |p| == n
  {
    l + seq(n - |l|, _ => NO_ENTRY)
  }

  /** An entry as a new period finds it. */
  function Cleared(b: Bfee): Bfee {
    if b.used && b.sounding then b.(sounding := false, candidate := false) else b
  }

  /** The entries once a period has listed them. */
  function Opening(b: seq<Bfee>, minPeriod: nat): (r: seq<Bfee>)
    requires minPeriod > 0
    ensures |r| == |b|
    ensures forall k :: 0 <= k < |b| ==> r[k] == Counted(Cleared(b[k]), Candidate(b, k), minPeriod)
  {
    seq(|b|, k requires 0 <= k < |b| => Counted(Cleared(b[k]), Candidate(b, k), minPeriod))
  }

  lemma OpeningIs(b: seq<Bfee>, c: seq<Bfee>, d: seq<Bfee>, minPeriod: nat)
    requires |b| == |c| == |d| && minPeriod > 0
    requires SuUpTo(b, |b|) == SuUpTo(c, |b|) && MuUpTo(b, |b|) == MuUpTo(c, |b|)
    requires forall k :: 0 <= k < |b| ==> c[k] == Cleared(b[k]) && d[k] == Counted(c[k], Candidate(c, k), minPeriod)
    ensures d == Opening(b, minPeriod)
  {
  }

  // ----------------------------------------------------------- whose turn

  /** Slot k of the single-user list l holds an entry not sounded yet. */
  predicate Waits(b: seq<Bfee>, l: seq<nat>, k: nat)
    requires k < |l|
  {
    l[k] < |b| && !b[l[k]].sounding
  }

  /** Whoever waits in a slot before k is only to be deleted. */
  predicate Reached(b: seq<Bfee>, l: seq<nat>, k: nat)
    requires k < |l|
  {
    forall j :: 0 <= j < k && Waits(b, l, j) ==> b[l[j]].deleteSounding
  }

  /** Entry e is the one to be sounded now. */
  ghost predicate Chosen(b: seq<Bfee>, l: seq<nat>, e: nat) {
    e < |b| && !b[e].deleteSounding && exists k :: 0 <= k < |l| && l[k] == e && Waits(b, l, k) && Reached(b, l, k)
  }

  /** Entry e is to be deleted, and its turn comes before that of the entry to be sounded. */
  ghost predicate Dropped(b: seq<Bfee>, l: seq<nat>, e: nat) {
    e < |b| && b[e].deleteSounding && exists k :: 0 <= k < |l| && l[k] == e && Waits(b, l, k) && Reached(b, l, k)
  }

  /**
   What moving on in a period makes of the entries b: those in line that are only to be deleted are done with, the
   first other one is sounded, and if there is none the multi-user group, if that is still to be sounded.
   */
  ghost predicate MovedOn(b: seq<Bfee>, l: seq<nat>, group: seq<nat>, c: seq<Bfee>, phase: Phase, cur: nat)
    requires |c| == |b|
  {
    && phase in {SuStart, MuStart, Init}
    && (phase.SuStart? ==> Chosen(b, l, cur))
    && (!phase.SuStart? ==> (forall e :: 0 <= e < |b| ==> !Chosen(b, l, e)) && (phase.MuStart? <==> group != []))
    && forall e :: 0 <= e < |b| ==>
         c[e] == if phase.SuStart? && e == cur then b[e].(sounding := true, soundingTimeout := false)
                 else if Dropped(b, l, e) then
                   b[e].(sounding := true, soundingTimeout := false, deleteSounding := false)
                 else if phase.MuStart? && e in group then b[e].(sounding := true)
                 else b[e]
  }

  /** Slot k is the first one in which an entry waits. */
  predicate IsFirst(b: seq<Bfee>, l: seq<nat>, k: nat) {
    k < |l| && Waits(b, l, k) && forall j :: 0 <= j < k ==> !Waits(b, l, j)
  }

  /** If it is to be sounded, it is the one chosen, and nobody is dropped. */
  lemma MovedToFirst(b: seq<Bfee>, l: seq<nat>, group: seq<nat>, k: nat)
    requires IsFirst(b, l, k) && !b[l[k]].deleteSounding
    ensures MovedOn(b, l, group, b[l[k] := b[l[k]].(sounding := true, soundingTimeout := false)], SuStart, l[k])
  {
    assert Reached(b, l, k);
    forall e | e != l[k] ensures !Dropped(b, l, e) {
      forall i | 0 <= i < |l| && l[i] == e && Waits(b, l, i) ensures !Reached(b, l, i) {
        assert i > k;
      }
    }
  }

  function Deleted(b: Bfee): Bfee {
    b.(sounding := true, soundingTimeout := false, deleteSounding := false)
  }

  lemma WaitsStill(b: seq<Bfee>, l: seq<nat>, k: nat, j: nat)
    requires IsFirst(b, l, k) && b[l[k]].deleteSounding && j < |l|
    requires forall i :: 0 <= i < |l| && i != k ==> l[i] != l[k]
    ensures var d := b[l[k] := Deleted(b[l[k]])];
            && (Waits(d, l, j) <==> Waits(b, l, j) && j != k)
            && (Reached(d, l, j) <==> Reached(b, l, j))
  {
    var d := b[l[k] := Deleted(b[l[k]])];
    assert forall i :: 0 <= i < |l| ==> (Waits(d, l, i) <==> Waits(b, l, i) && i != k);
  }

  /** Who is chosen or dropped after the first one has been deleted. */
  lemma TurnsStill(b: seq<Bfee>, l: seq<nat>, k: nat, e: nat)
    requires IsFirst(b, l, k) && b[l[k]].deleteSounding && e < |b|
    requires forall i :: 0 <= i < |l| && i != k ==> l[i] != l[k]
    ensures var d := b[l[k] := Deleted(b[l[k]])];
            && (Chosen(d, l, e) <==> Chosen(b, l, e))
            && (Dropped(b, l, e) <==> Dropped(d, l, e) || e == l[k])
            && !Dropped(d, l, l[k]) && !Chosen(d, l, l[k])
  {
    forall j: nat | j < |l| {
      WaitsStill(b, l, k, j);
    }
    assert Reached(b, l, k);
  }

  /** If it is only to be deleted, the others follow as they would have without it. */
  lemma MovedPast(b: seq<Bfee>, l: seq<nat>, group: seq<nat>, k: nat, c: seq<Bfee>, phase: Phase, cur: nat)
    requires IsFirst(b, l, k) && b[l[k]].deleteSounding && |c| == |b| && l[k] !in group
    requires forall i :: 0 <= i < |l| && i != k ==> l[i] != l[k]
    requires MovedOn(b[l[k] := Deleted(b[l[k]])], l, group, c, phase, cur)
    ensures MovedOn(b, l, group, c, phase, cur)
  {
    forall e: nat | e < |b| {
      TurnsStill(b, l, k, e);
    }
  }

  /** The same, from the two writes that delete it. */
  lemma MovedPastDeleted(b: seq<Bfee>, l: seq<nat>, group: seq<nat>, k: nat, d: seq<Bfee>, c: seq<Bfee>,
                         phase: Phase, cur: nat)
    requires |l| == 2 && IsFirst(b, l, k) && b[l[k]].deleteSounding && |c| == |b| == |d|
    requires l[0] != l[1] && l[k] !in group
    requires d == b[l[k] := b[l[k]].(sounding := true, soundingTimeout := false)]
    requires MovedOn(d[l[k] := Reported(d[l[k]], false)], l, group, c, phase, cur)
    ensures MovedOn(b, l, group, c, phase, cur)
  {
    assert d[l[k] := Reported(d[l[k]], false)] == b[l[k] := Deleted(b[l[k]])];
    MovedPast(b, l, group, k, c, phase, cur);
  }

  /** If nobody waits, it is the group's turn. */
  lemma MovedToGroup(b: seq<Bfee>, l: seq<nat>, group: seq<nat>, c: seq<Bfee>, cur: nat)
    requires |c| == |b| && forall k :: 0 <= k < |l| ==> !Waits(b, l, k)
    requires forall e :: 0 <= e < |b| ==> c[e] == b[e].(sounding := b[e].sounding || e in group)
    ensures MovedOn(b, l, group, c, if group == [] then Init else MuStart, cur)
  {
  }

  // ------------------------------------------------------------ failures

  /** The successor in a five-bit counter. */
  function Next5(x: nat): nat {
    if x >= 31 then 0 else x + 1
  }

  /** An entry after its sounding ended with this status: failures count up in five bits. */
  function Reported(b: Bfee, status: bool): Bfee {
    if status then b.(failCnt := 0)
    else if b.deleteSounding then b.(deleteSounding := false)
    else b.(failCnt := Next5(b.failCnt))
  }

  /** The entries after a report: it is about the current one while a single-user sounding is under way. */
  function Heard(b: seq<Bfee>, phase: Phase, cur: nat, status: bool): (r: seq<Bfee>)
    requires phase.SuStart? ==> cur < |b|
    ensures |r| == |b|
    ensures forall k :: 0 <= k < |b| ==> r[k] == if phase.SuStart? && k == cur then Reported(b[k], status) else b[k]
  {
    if phase.SuStart? then b[cur := Reported(b[cur], status)] else b
  }

  /** This report makes the driver ask the station to leave. */
  predicate GivesUp(b: Bfee, status: bool) {
    !status && !b.deleteSounding && Reported(b, status).failCnt > 30
  }

  /** A report changes the failure count, and takes back a request to delete that was not met; nothing else. */
  lemma ReportChangesOnly(b: Bfee, status: bool)
    ensures var r := Reported(b, status);
            && r == b.(failCnt := r.failCnt, deleteSounding := b.deleteSounding && status)
            && (status ==> r.failCnt == 0)
            && (!status && b.deleteSounding ==> r.failCnt == b.failCnt)
            && (!status && !b.deleteSounding && b.failCnt < 32 ==> r.failCnt == (b.failCnt + 1) % 32)
  {
  }

  /** One report: its status, and whether the entry was to be deleted when it came. */
  datatype Report = Report(status: bool, deleting: bool)

  predicate IsFailure(r: Report) {
    !r.status && !r.deleting
  }

  /** The entry as the next report finds it. */
  function Awaiting(b: Bfee, r: Report): Bfee {
    b.(deleteSounding := r.deleting)
  }

  function ReportedAll(b: Bfee, rs: seq<Report>): Bfee
    decreases |rs|
  {
    if rs == [] then b
    else
      var r := rs[|rs| - 1];
      Reported(Awaiting(ReportedAll(b, rs[..|rs| - 1]), r), r.status)
  }

  /** Failures since the last success; reports about a deletion are neither. */
  function Streak(rs: seq<Report>): nat
    decreases |rs|
  {
    if rs == [] then 0
    else
      var r, n := rs[|rs| - 1], Streak(rs[..|rs| - 1]);
      if r.status then 0 else if IsFailure(r) then n + 1 else n
  }

  lemma Mod32(n: nat)
    ensures (n + 1) % 32 == Next5(n % 32)
  {
  }

  lemma ReportCounts(b: Bfee, r: Report)
    ensures Reported(Awaiting(b, r), r.status).failCnt
            == if r.status then 0 else if IsFailure(r) then Next5(b.failCnt) else b.failCnt
    ensures GivesUp(Awaiting(b, r), r.status) <==> IsFailure(r) && Next5(b.failCnt) > 30
  {
  }

  lemma {:induction false} CountIsStreak(b: Bfee, rs: seq<Report>)
    requires b.failCnt == 0
    ensures ReportedAll(b, rs).failCnt == Streak(rs) % 32
    decreases |rs|
  {
    if rs != [] {
      var n := |rs| - 1;
      var before := ReportedAll(b, rs[..n]);
      CountIsStreak(b, rs[..n]);
      ReportCounts(before, rs[n]);
      Mod32(Streak(rs[..n]));
    }
  }

  /**
   The station is asked to leave exactly at the 31st failure in a row, whatever
   deletions come in between, and again 32 failures later, because the counter
   has five bits.
   */
  lemma LeavesAtThirtyFirst(b: Bfee, rs: seq<Report>, r: Report)
    requires b.failCnt == 0
    ensures GivesUp(Awaiting(ReportedAll(b, rs), r), r.status) <==> IsFailure(r) && Streak(rs + [r]) % 32 == 31
    ensures IsFailure(r) && Streak(rs) == 30 ==> GivesUp(Awaiting(ReportedAll(b, rs), r), r.status)
    ensures Streak(rs) < 30 ==> !GivesUp(Awaiting(ReportedAll(b, rs), r), r.status)
  {
    CountIsStreak(b, rs);
    ReportCounts(ReportedAll(b, rs), r);
    Mod32(Streak(rs));
    assert (rs + [r])[..|rs|] == rs;
  }

  // ------------------------------------------------------------ counters

  /** The phases in which _sounding_handler does anything. */
  predicate Handles(p: Phase) {
    p.Init? || p.SuDown? || p.MuDown? || p.TimedOut?
  }

  /** A sounding is under way. */
  predicate Busy(p: Phase) {
    p.SuStart? || p.MuStart?
  }

  /** s8 arithmetic. */
  function Less1(x: int): int {
    if x == -128 then 127 else x - 1
  }

  function More1(x: int): int {
    if x == 127 then -128 else x + 1
  }

  /** u8 arithmetic. */
  function Up8(x: Byte): Byte {
    if x == 255 then 0 else x + 1
  }

  function Down8(x: Byte): Byte {
    if x == 0 then 255 else x - 1
  }

  /** Start commands waiting in the queue. */
  function Starts(q: seq<Command>): nat {
    multiset(q)[StartPeriod]
  }

  lemma StartsMore(q: seq<Command>, c: Command)
    ensures Starts(q + [c]) == Starts(q) + if c == StartPeriod then 1 else 0
  {
  }

  lemma StartsWith(q: seq<Command>, leaves: seq<Command>)
    requires leaves == [] || (|leaves| == 1 && leaves[0].Leave?)
    ensures Starts(q + leaves) == Starts(q)
  {
    if leaves == [] {
      assert q + leaves == q;
    } else {
      StartsMore(q, leaves[0]);
      assert leaves == [leaves[0]];
    }
  }

  lemma StartsRest(q: seq<Command>)
    requires q != []
    ensures Starts(q) == Starts(q[1..]) + if q[0] == StartPeriod then 1 else 0
  {
    assert q == [q[0]] + q[1..];
  }

  /** Decrements until an s8 counter is zero, through -128 and 127 if it is negative. */
  function StepsToZero(x: int): nat
    requires -128 <= x < 128
  {
    if x < 0 then x + 256 else x
  }

  /** The entry of a station, and a free one; ENTRIES if there is none. */
  function ByAddr(b: seq<Bfee>, mac: Mac): (k: nat)
    ensures k <= |b|
    ensures k < |b| ==> b[k].used && b[k].mac == mac
    ensures k == |b| ==> forall j :: 0 <= j < |b| ==> !(b[j].used && b[j].mac == mac)
  {
    if b == [] || (b[0].used && b[0].mac == mac) then 0 else 1 + ByAddr(b[1..], mac)
  }

  function FreeSlot(b: seq<Bfee>): (k: nat)
    ensures k <= |b|
    ensures k < |b| ==> !b[k].used
    ensures k == |b| ==> forall j :: 0 <= j < |b| ==> b[j].used
  {
    if b == [] || !b[0].used then 0 else 1 + FreeSlot(b[1..])
  }

  /** Where a station that enters is entered: its old entry, or else a free one. */
  function SlotFor(b: seq<Bfee>, mac: Mac): (k: nat)
    ensures k <= |b|
    ensures k < |b| && b[k].used ==> b[k].mac == mac
    ensures k == |b| || !b[k].used ==> forall j :: 0 <= j < |b| ==> !(b[j].used && b[j].mac == mac)
    ensures k == |b| ==> forall j :: 0 <= j < |b| ==> b[j].used
  {
    if ByAddr(b, mac) < |b| then ByAddr(b, mac) else FreeSlot(b)
  }

  ghost predicate Distinct(s: seq<nat>) {
    forall i, j :: 0 <= i < j < |s| ==> s[i] != s[j]
  }
}
