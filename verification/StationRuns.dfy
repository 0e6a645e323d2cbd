/**
 What the access point's counters and mode word come to over a whole run. A
 counter is the number of stations with its mark plus a drift: what events that
 do not keep the two in step have left behind.
 */
module StationRuns {

  import opened StationMarks

  // ----------------------------------------------------------- counters

  /**
   The drift after an event. A freed record leaves its marks behind; the count of stations without HT
   is also raised by scan results and reset when a scan is gone through, whatever stations there are.
   */
  function Drifted(drift: int, f: Flag, m: Marks, e: Event): int {
    match e
    case Free(id) => drift + if f in MarksOf(m, id) then 1 else 0
    case Collect => drift + if f.NoHt? then 1 else 0
    case Scan(_) => if f.NoHt? then -|With(m, f)| else drift
    case _ => drift
  }

  function Drift(run: seq<Event>, f: Flag, htEnabled: bool): int
    decreases |run|
  {
    if run == [] then 0
    else
      var before := run[..|run| - 1];
      Drifted(Drift(before, f, htEnabled), f, MarksAfter(before, htEnabled), run[|run| - 1])
  }

  /** The value of a counter. */
  function Num(run: seq<Event>, f: Flag, htEnabled: bool): int {
    |With(MarksAfter(run, htEnabled), f)| + Drift(run, f, htEnabled)
  }

  predicate FreesMarked(run: seq<Event>, k: nat, f: Flag, htEnabled: bool)
    requires k < |run|
  {
    run[k].Free? && f in MarksOf(MarksAfter(run[..k], htEnabled), run[k].id)
  }

  /** Some record is freed while it carries the mark. */
  ghost predicate Loses(run: seq<Event>, f: Flag, htEnabled: bool) {
    exists k: nat :: k < |run| && FreesMarked(run, k, f, htEnabled)
  }

  /** No scan touches the counter. */
  predicate Unscanned(run: seq<Event>, f: Flag) {
    f.NoHt? ==> forall e :: e in run ==> !e.Scan? && !e.Collect?
  }

  lemma LosesOneMore(run: seq<Event>, f: Flag, htEnabled: bool)
    requires run != []
    ensures var n := |run| - 1;
            Loses(run, f, htEnabled) <==> Loses(run[..n], f, htEnabled) || FreesMarked(run, n, f, htEnabled)
  {
    var n := |run| - 1;
    forall k: nat | k < n ensures FreesMarked(run, k, f, htEnabled) == FreesMarked(run[..n], k, f, htEnabled) {
      assert run[..n][..k] == run[..k];
    }
    if Loses(run[..n], f, htEnabled) {
      var k: nat :| k < n && FreesMarked(run[..n], k, f, htEnabled);
      assert FreesMarked(run, k, f, htEnabled);
    }
  }

  /** The drift is never negative, and it is zero exactly if no record was freed with the mark. */
  lemma {:induction false} DriftIff(run: seq<Event>, f: Flag, htEnabled: bool)
    requires Unscanned(run, f)
    ensures Drift(run, f, htEnabled) >= 0
    ensures Drift(run, f, htEnabled) == 0 <==> !Loses(run, f, htEnabled)
    decreases |run|
  {
    if run != [] {
      var n := |run| - 1;
      DriftIff(run[..n], f, htEnabled);
      LosesOneMore(run, f, htEnabled);
      assert run[n] in run;
    }
  }

  /** So a counter is right exactly as long as no record was freed with its mark. */
  lemma NumExactIff(run: seq<Event>, f: Flag, htEnabled: bool)
    requires Unscanned(run, f)
    ensures Num(run, f, htEnabled) == |With(MarksAfter(run, htEnabled), f)| <==> !Loses(run, f, htEnabled)
    ensures Num(run, f, htEnabled) > 0 <==> Some(Sessions(run), f, htEnabled) || Loses(run, f, htEnabled)
    ensures Num(run, f, htEnabled) >= 0
  {
    DriftIff(run, f, htEnabled);
    MarksMeanSessions(run, htEnabled);
    WithMeans(MarksAfter(run, htEnabled), Sessions(run), f, htEnabled);
  }

  /** Nothing that happens later makes up for a lost mark. */
  lemma LostForGood(run: seq<Event>, more: seq<Event>, f: Flag, htEnabled: bool)
    requires Loses(run, f, htEnabled)
    ensures Loses(run + more, f, htEnabled)
    ensures Unscanned(run + more, f) ==> Num(run + more, f, htEnabled) > 0
  {
    var k: nat :| k < |run| && FreesMarked(run, k, f, htEnabled);
    assert (run + more)[..k] == run[..k] && (run + more)[k] == run[k];
    assert FreesMarked(run + more, k, f, htEnabled);
    if Unscanned(run + more, f) {
      NumExactIff(run + more, f, htEnabled);
    }
  }

  /** After going through a scan the count of stations without HT is right exactly if there is none. */
  lemma ScanExactIff(run: seq<Event>, legacy: bool, htEnabled: bool)
    ensures var after := run + [Scan(legacy)];
            && Num(after, NoHt, htEnabled) == 0
            && (Num(after, NoHt, htEnabled) == |With(MarksAfter(after, htEnabled), NoHt)|
                <==> !Some(Sessions(run), NoHt, htEnabled))
  {
    var after := run + [Scan(legacy)];
    assert after[..|run|] == run;
    MarksMeanSessions(run, htEnabled);
    WithMeans(MarksAfter(run, htEnabled), Sessions(run), NoHt, htEnabled);
  }

  lemma OneMore(run: seq<Event>, e: Event, f: Flag, htEnabled: bool)
    ensures var m := MarksAfter(run, htEnabled);
            && MarksAfter(run + [e], htEnabled) == Marked(m, e, htEnabled)
            && Drift(run + [e], f, htEnabled) == Drifted(Drift(run, f, htEnabled), f, m, e)
            && Heard(run + [e]) == HeardBy(Heard(run), e)
  {
    assert (run + [e])[..|run|] == run;
  }

  lemma FreedCount(m: Marks, id: StaId, f: Flag)
    ensures |With(m, f)| == |With(m - {id}, f)| + if f in MarksOf(m, id) then 1 else 0
  {
    var n := With(m - {id}, f);
    assert n == With(m, f) - {id};
    if f in MarksOf(m, id) {
      assert With(m, f) == n + {id};
    } else {
      assert With(m, f) == n;
    }
  }

  lemma ClearedCount(m: Marks, id: StaId, f: Flag)
    requires f in MarksOf(m, id)
    ensures |With(m, f)| == |With(m[id := {}], f)| + 1
  {
    var n := With(m[id := {}], f);
    assert n == With(m, f) - {id};
    assert With(m, f) == n + {id};
  }

  /** Freeing a record leaves the counters of its marks as they are, one too high for good. */
  lemma FreeLoses(run: seq<Event>, id: StaId, f: Flag, htEnabled: bool)
    requires f in MarksOf(MarksAfter(run, htEnabled), id)
    ensures Loses(run + [Free(id)], f, htEnabled)
    ensures Num(run + [Free(id)], f, htEnabled) == Num(run, f, htEnabled)
  {
    var after, m := run + [Free(id)], MarksAfter(run, htEnabled);
    assert after[..|run|] == run;
    assert FreesMarked(after, |run|, f, htEnabled);
    FreedCount(m, id, f);
  }

  const OLD_STATION: Caps := Caps(true, true, true, false, false, false, false)

  lemma OldStationJoins(htEnabled: bool)
    ensures var run := [Join(1, OLD_STATION)];
            && MarksAfter(run, htEnabled) == map[1 := Joined({}, OLD_STATION, htEnabled)]
            && Num(run, NonErp, htEnabled) == 1
  {
    var run := [Join(1, OLD_STATION)];
    OneMore([], run[0], NonErp, htEnabled);
    assert [] + run == run;
    assert With(MarksAfter(run, htEnabled), NonErp) == {1};
  }

  /** An instance: a non-ERP station associates, and its record is freed when a later authentication fails. */
  lemma FreedNonErp(htEnabled: bool)
    ensures var run := [Join(1, OLD_STATION), Free(1)];
            && MarksAfter(run, htEnabled) == map[]
            && Loses(run, NonErp, htEnabled) && Num(run, NonErp, htEnabled) == 1
  {
    var joined := [Join(1, OLD_STATION)];
    OldStationJoins(htEnabled);
    OneMore(joined, Free(1), NonErp, htEnabled);
    FreeLoses(joined, 1, NonErp, htEnabled);
    assert joined + [Free(1)] == [Join(1, OLD_STATION), Free(1)];
  }

  /** Another: a station that is only known reports intolerance, and its record expires. */
  lemma FreedIntolerant(htEnabled: bool)
    ensures var run := [Meet(1), Intolerant(1), Free(1)];
            && MarksAfter(run, htEnabled) == map[]
            && Loses(run, Intolerant40, htEnabled) && Num(run, Intolerant40, htEnabled) == 1
  {
    var met := [] + [Meet(1)];
    var told := met + [Intolerant(1)];
    OneMore([], Meet(1), Intolerant40, htEnabled);
    OneMore(met, Intolerant(1), Intolerant40, htEnabled);
    OneMore(told, Free(1), Intolerant40, htEnabled);
    FreeLoses(told, 1, Intolerant40, htEnabled);
    assert With(MarksAfter(told, htEnabled), Intolerant40) == {1};
    assert told + [Free(1)] == [Meet(1), Intolerant(1), Free(1)];
  }

  /** Whenever a station without HT leaves right after a scan was gone through, the count of such stations is -1. */
  lemma ScanUnderflows(run: seq<Event>, legacy: bool, id: StaId, htEnabled: bool)
    requires NoHt in MarksOf(MarksAfter(run, htEnabled), id)
    ensures Num(run + [Scan(legacy)] + [Leave(id)], NoHt, htEnabled) == -1
  {
    var m := MarksAfter(run, htEnabled);
    OneMore(run, Scan(legacy), NoHt, htEnabled);
    OneMore(run + [Scan(legacy)], Leave(id), NoHt, htEnabled);
    ClearedCount(m, id, NoHt);
  }

  // ---------------------------------------------------------- mode word

  /** Whether a legacy network was heard since the last check that found one. */
  function HeardBy(heard: bool, e: Event): bool {
    match e
    case Hear => true
    case Scan(legacy) => heard || legacy
    case Check(_) => false
    case _ => heard
  }

  function Heard(run: seq<Event>): bool
    decreases |run|
  {
    run != [] && HeardBy(Heard(run[..|run| - 1]), run[|run| - 1])
  }

  /**
   What the HT update last found: the counts that were not zero and whether legacy networks were about.
   `forced` says that the mode has been overwritten since, by a channel set-up.
   */
  datatype View = View(noHt: bool, noGf: bool, ht20: bool, legacy: bool, forced: bool)

  const NOTHING: View := View(false, false, false, false, false)

  /** Which events run the HT update: associating, leaving, and checks that are due or have heard something. */
  predicate Updates(m: Marks, heard: bool, e: Event, htEnabled: bool) {
    match e
    case Join(_, _) => htEnabled
    case Leave(id) => id in m
    case Check(due) => due || heard
    case _ => false
  }

  function ViewBy(v: View, now: View, m: Marks, heard: bool, e: Event, htEnabled: bool, htOption: bool): View {
    if e.Switch? then v.(forced := v.forced || heard)
    else if htOption && Updates(m, heard, e, htEnabled) then now
    else v
  }

  function Now(run: seq<Event>, heard: bool, htEnabled: bool): View {
    View(Num(run, NoHt, htEnabled) != 0, Num(run, NoGreenfield, htEnabled) != 0, Num(run, Ht20, htEnabled) != 0,
         heard, false)
  }

  function ViewAfter(run: seq<Event>, htEnabled: bool, htOption: bool): View
    decreases |run|
  {
    if run == [] then NOTHING
    else
      var before := run[..|run| - 1];
      ViewBy(ViewAfter(before, htEnabled, htOption), Now(run, Heard(before), htEnabled),
             MarksAfter(before, htEnabled), Heard(before), run[|run| - 1], htEnabled, htOption)
  }

  /** No event changes a count or the mode behind the update's back. */
  predicate Updated(run: seq<Event>) {
    forall e :: e in run ==> !e.Scan? && !e.Collect? && !e.Switch?
  }

  predicate OfHt(f: Flag) {
    f.NoHt? || f.NoGreenfield? || f.Ht20?
  }

  lemma CountStays(m: Marks, e: Event, f: Flag, drift: int)
    requires OfHt(f) && !e.Scan? && !e.Collect? && !e.Join? && !(e.Leave? && e.id in m)
    ensures |With(Marked(m, e, false), f)| + Drifted(drift, f, m, e) == |With(m, f)| + drift
  {
    match e
    case Free(id) => FreedCount(m, id, f);
    case Meet(id) => assert With(Marked(m, e, false), f) == With(m, f);
    case Intolerant(id) => assert With(Marked(m, e, false), f) == With(m, f);
    case _ =>
  }

  lemma BasicStays(m: Marks, id: StaId, c: Caps, f: Flag)
    requires OfHt(f)
    ensures With(Marked(m, Join(id, c), false), f) == With(m, f)
  {
    assert f in JoinedBasic(MarksOf(m, id), c) <==> f in MarksOf(m, id);
  }

  lemma NumStays(run: seq<Event>, f: Flag, htEnabled: bool)
    requires run != [] && OfHt(f)
    requires var e := run[|run| - 1];
             && !e.Scan? && !e.Collect?
             && !Updates(MarksAfter(run[..|run| - 1], htEnabled), Heard(run[..|run| - 1]), e, htEnabled)
    ensures Num(run, f, htEnabled) == Num(run[..|run| - 1], f, htEnabled)
  {
    var m, e := MarksAfter(run[..|run| - 1], htEnabled), run[|run| - 1];
    if e.Join? {
      BasicStays(m, e.id, e.caps, f);
    } else {
      CountStays(m, e, f, Drift(run[..|run| - 1], f, htEnabled));
    }
  }

  /** Without such events the update's view of the counts is current at every moment. */
  lemma {:induction false} ViewIsCurrent(run: seq<Event>, htEnabled: bool)
    requires Updated(run)
    ensures ViewAfter(run, htEnabled, true) == Now(run, ViewAfter(run, htEnabled, true).legacy, htEnabled)
    decreases |run|
  {
    if run == [] {
      forall f: Flag ensures With(map[], f) == {} {
      }
    } else {
      var before, e := run[..|run| - 1], run[|run| - 1];
      assert e in run;
      ViewIsCurrent(before, htEnabled);
      if !Updates(MarksAfter(before, htEnabled), Heard(before), e, htEnabled) {
        NumStays(run, NoHt, htEnabled);
        NumStays(run, NoGreenfield, htEnabled);
        NumStays(run, Ht20, htEnabled);
      }
    }
  }
}
