/**
 The access point's bookkeeping about its stations: seven counters kept beside
 the per-station marks, the HT operation mode and the beacon's ERP bits, all
 updated step by step. The class is proved to follow `StationMarks` and
 `StationRuns`.
 */
module StationAccounting {

  import opened StationMarks
  import opened StationRuns

  datatype Mode = Pure | MayBeLegacy | Ht20Associated | Mixed

  /** The HT operation mode word: bits 0-1, bit 2, bit 3, bit 4 and the rest. */
  datatype HtOpMode = HtOpMode(mode: Mode, nonGf: bool, burst: bool, nonHt: bool, rest: nat)

  /** The ERP octet: bits 0, 1, 2 and the rest. */
  datatype ErpInfo = ErpInfo(nonErpPresent: bool, useProtection: bool, barker: bool, rest: nat)

  const CLEAR: HtOpMode := HtOpMode(Pure, false, false, false, 0)

  /** The operation mode of section 9.4.2.57 of IEEE Std 802.11-2016. */
  function ModeFor(noHt: bool, ht20: bool, legacyNear: bool, width40: bool): Mode {
    if noHt then Mixed
    else if width40 && ht20 then Ht20Associated
    else if legacyNear then MayBeLegacy
    else Pure
  }

  /** What the stations make of the word; the burst limit and the rest are not theirs. */
  function Adapted(w: HtOpMode, noHt: bool, noGf: bool, ht20: bool, legacyNear: bool, width40: bool): HtOpMode {
    w.(mode := ModeFor(noHt, ht20, legacyNear, width40), nonGf := noGf, nonHt := noHt || legacyNear)
  }

  /** The word for what the last update found; a channel set-up may have overwritten the mode. */
  function WordFor(v: View, width40: bool): HtOpMode {
    var w := Adapted(CLEAR, v.noHt, v.noGf, v.ht20, v.legacy, width40);
    if v.forced then w.(mode := MayBeLegacy) else w
  }

  /** What an update finds. */
  function Looked(num: map<Flag, int>, legacy: bool): View
    requires NoHt in num && NoGreenfield in num && Ht20 in num
  {
    View(num[NoHt] != 0, num[NoGreenfield] != 0, num[Ht20] != 0, legacy, false)
  }

  predicate Protects(e: ErpInfo, nonErp: bool) {
    e.nonErpPresent == nonErp && e.useProtection == nonErp
  }

  lemma RaiseCounts(m: Marks, id: StaId, f: Flag)
    requires id in m && f !in m[id]
    ensures var n := m[id := m[id] + {f}];
            && |With(n, f)| == |With(m, f)| + 1
            && forall g :: g != f ==> With(n, g) == With(m, g)
  {
    var n := m[id := m[id] + {f}];
    assert With(n, f) == With(m, f) + {id};
  }

  lemma LowerCounts(m: Marks, id: StaId, f: Flag)
    requires id in m && f in m[id]
    ensures var n := m[id := m[id] - {f}];
            && |With(m, f)| == |With(n, f)| + 1
            && forall g :: g != f ==> With(n, g) == With(m, g)
  {
    var n := m[id := m[id] - {f}];
    assert With(m, f) == With(n, f) + {id};
  }

  /** Every counter equals the number of stations with its mark. */
  ghost predicate Counts(m: Marks, num: map<Flag, int>) {
    forall f: Flag :: f in num && num[f] == |With(m, f)|
  }

  /** The same up to a drift, which only the count of stations without HT can have below zero. */
  ghost predicate Tallies(m: Marks, num: map<Flag, int>, drift: map<Flag, int>) {
    forall f: Flag :: f in num && f in drift && num[f] == |With(m, f)| + drift[f] && (f.NoHt? || drift[f] >= 0)
  }

  /** What an event does to the drift. */
  ghost predicate Drifts(was: map<Flag, int>, now: map<Flag, int>, m: Marks, e: Event) {
    forall f: Flag :: f in was && f in now && now[f] == Drifted(was[f], f, m, e)
  }

  const ZEROS: map<Flag, int> := map[NoShortPreamble := 0, NonErp := 0, NoShortSlot := 0, NoHt := 0,
                                     NoGreenfield := 0, Ht20 := 0, Intolerant40 := 0]

  lemma NothingCounted()
    ensures forall f: Flag :: f in ZEROS && ZEROS[f] == 0 && With(map[], f) == {}
  {
    forall f: Flag ensures f in ZEROS && ZEROS[f] == 0 {
      match f
      case NoShortPreamble => case NonErp => case NoShortSlot => case NoHt =>
      case NoGreenfield => case Ht20 => case Intolerant40 =>
    }
  }

  lemma DriftStays(m: Marks, num: map<Flag, int>, drift: map<Flag, int>, e: Event)
    requires Tallies(m, num, drift) && !e.Free? && !e.Scan? && !e.Collect?
    ensures Drifts(drift, drift, m, e)
  {
  }

  /** The drifts d after a run follow the drifts of the run. */
  ghost predicate DriftsAre(d: map<Flag, int>, run: seq<Event>, htEnabled: bool) {
    forall f: Flag :: f in d && d[f] == Drift(run, f, htEnabled)
  }

  lemma DriftsNext(run: seq<Event>, e: Event, was: map<Flag, int>, now: map<Flag, int>, htEnabled: bool)
    requires DriftsAre(was, run, htEnabled) && Drifts(was, now, MarksAfter(run, htEnabled), e)
    ensures DriftsAre(now, run + [e], htEnabled)
  {
    forall f: Flag ensures f in now && now[f] == Drift(run + [e], f, htEnabled) {
      OneMore(run, e, f, htEnabled);
    }
  }

  lemma LookedIsNow(run: seq<Event>, m: Marks, num: map<Flag, int>, drift: map<Flag, int>, heard: bool, htEnabled: bool)
    requires Tallies(m, num, drift) && DriftsAre(drift, run, htEnabled) && m == MarksAfter(run, htEnabled)
    ensures Looked(num, heard) == Now(run, heard, htEnabled)
  {
  }

  lemma ScanDrifts(m: Marks, num: map<Flag, int>, drift: map<Flag, int>, legacy: bool)
    requires Tallies(m, num, drift)
    ensures var now := drift[NoHt := -|With(m, NoHt)|];
            Tallies(m, num[NoHt := 0], now) && Drifts(drift, now, m, Scan(legacy))
  {
  }

  lemma CollectDrifts(m: Marks, num: map<Flag, int>, drift: map<Flag, int>)
    requires Tallies(m, num, drift)
    ensures var now := drift[NoHt := drift[NoHt] + 1];
            Tallies(m, num[NoHt := num[NoHt] + 1], now) && Drifts(drift, now, m, Collect)
  {
  }

  lemma FreeDrifts(m: Marks, num: map<Flag, int>, drift: map<Flag, int>, id: StaId)
    requires Tallies(m, num, drift)
    ensures var now := map f | f in drift :: Drifted(drift[f], f, m, Free(id));
            Tallies(m - {id}, num, now) && Drifts(drift, now, m, Free(id))
  {
    forall f: Flag ensures |With(m, f)| == |With(m - {id}, f)| + if f in MarksOf(m, id) then 1 else 0 {
      FreedCount(m, id, f);
    }
  }

  /** Freeing a record keeps exact counters exact only if the record carries no mark. */
  lemma FreeKeepsIff(m: Marks, id: StaId, num: map<Flag, int>)
    requires Counts(m, num) && id in m
    ensures Counts(m - {id}, num) <==> m[id] == {}
  {
    forall f: Flag ensures |With(m, f)| == |With(m - {id}, f)| + if f in m[id] then 1 else 0 {
      FreedCount(m, id, f);
    }
    if m[id] != {} {
      var f :| f in m[id];
      assert num[f] != |With(m - {id}, f)|;
    }
  }

  predicate SameHt(a: map<Flag, int>, b: map<Flag, int>)
    requires NoHt in a && NoGreenfield in a && Ht20 in a
    requires NoHt in b && NoGreenfield in b && Ht20 in b
  {
    a[NoHt] == b[NoHt] && a[NoGreenfield] == b[NoGreenfield] && a[Ht20] == b[Ht20]
  }

  lemma SetTwice(m: Marks, id: StaId, a: set<Flag>, b: set<Flag>)
    ensures m[id := a][id := b] == m[id := b]
  {
  }

  /** The maps a join goes through. */
  lemma JoinMaps(m: Marks, id: StaId, c: Caps, htEnabled: bool)
    ensures var m1 := Marked(m, Meet(id), htEnabled);
            var m2 := m1[id := JoinedBasic(m1[id], c)];
            (if htEnabled then m2[id := JoinedHt(m2[id], c)] else m2) == Marked(m, Join(id, c), htEnabled)
  {
  }

  class Bss {
    const htEnabled: bool        // HT enabled and supported by the wireless mode
    const htOption: bool         // the BSS itself runs HT
    const width40: bool          // the access point announces 40 MHz support
    const erpActive: bool        // ERP is enabled and the beacon carries a nonempty ERP element

    var stas: Marks
    var num: map<Flag, int>
    var htOpMode: HtOpMode
    var erp: ErpInfo
    var olbc: bool
    var olbcHt: bool
    /** By how much the counters are off, and what the last HT update found. */
    ghost var drift: map<Flag, int>
    ghost var view: View

    ghost predicate Counted()
      reads `stas, `num, `drift
    {
      Tallies(stas, num, drift)
    }

    ghost predicate ErpExact()
      reads `num, `erp
    {
      NonErp in num && (erpActive ==> Protects(erp, num[NonErp] > 0))
    }

    /** The word the counters call for. */
    ghost function Wanted(w: HtOpMode, legacyNear: bool): HtOpMode
      requires NoHt in num && NoGreenfield in num && Ht20 in num
      reads `num
    {
      Adapted(w, num[NoHt] != 0, num[NoGreenfield] != 0, num[Ht20] != 0, legacyNear, width40)
    }

    ghost predicate ModeExact()
      reads `htOpMode, `view
    {
      htOpMode == WordFor(view, width40)
    }

    ghost predicate Valid()
      reads this
    {
      Counted() && ErpExact() && ModeExact()
    }

    /** No station is known and nothing has been counted, heard or updated. */
    ghost predicate Fresh()
      reads this
    {
      stas == map[] && drift == ZEROS && !olbc && !olbcHt && view == NOTHING
    }

    /** The state in which the access point starts; `element` is the ERP octet of the fresh beacon. */
    constructor (htEnabled: bool, htOption: bool, width40: bool, erpActive: bool, element: ErpInfo)
      requires Protects(element, false)
      ensures Valid() && Fresh() && erp == element
      ensures this.htEnabled == htEnabled && this.htOption == htOption
      ensures this.width40 == width40 && this.erpActive == erpActive
    {
      this.htEnabled, this.htOption, this.width40, this.erpActive := htEnabled, htOption, width40, erpActive;
      stas := map[];
      num, drift := ZEROS, ZEROS;
      htOpMode, erp, view := CLEAR, element, NOTHING;
      olbc, olbcHt := false, false;
      new;
      NothingCounted();
    }

    // -------------------------------------------------------- the marks

    /** `if (!mark) { mark = 1; counter++; }` */
    method Raise(id: StaId, f: Flag) returns (changed: bool)
      requires Counted() && id in stas
      modifies `stas, `num
      ensures Counted() && stas == old(stas)[id := old(stas)[id] + {f}]
      ensures changed == (f !in old(stas)[id])
      ensures num == old(num)[f := old(num[f]) + if changed then 1 else 0]
    {
      changed := f !in stas[id];
      if changed {
        RaiseCounts(stas, id, f);
        stas := stas[id := stas[id] + {f}];
        num := num[f := num[f] + 1];
      } else {
        assert stas[id] + {f} == stas[id];
      }
    }

    /** `if (mark) { mark = 0; counter--; }` */
    method Lower(id: StaId, f: Flag) returns (changed: bool)
      requires Counted() && id in stas
      modifies `stas, `num
      ensures Counted() && stas == old(stas)[id := old(stas)[id] - {f}]
      ensures changed == (f in old(stas)[id])
      ensures num == old(num)[f := old(num[f]) - if changed then 1 else 0]
    {
      changed := f in stas[id];
      if changed {
        LowerCounts(stas, id, f);
        stas := stas[id := stas[id] - {f}];
        num := num[f := num[f] - 1];
      } else {
        assert stas[id] - {f} == stas[id];
      }
    }

    method Mark(id: StaId, f: Flag, on: bool)
      requires Counted() && id in stas
      modifies `stas, `num
      ensures Counted() && stas == old(stas)[id := SetTo(old(stas)[id], f, on)]
      ensures f.NoHt? || f.NoGreenfield? || f.Ht20? || SameHt(num, old(num))
      ensures f.NonErp? || num[NonErp] == old(num)[NonErp]
    {
      if on {
        var _ := Raise(id, f);
      } else {
        var _ := Lower(id, f);
      }
    }

    /** The updater tests for a count of exactly one. */
    method UpdateErp()
      requires NonErp in num && NoShortPreamble in num
      modifies `erp
      ensures !erpActive ==> erp == old(erp)
      ensures erpActive ==> Protects(erp, num[NonErp] == 1)
      ensures erpActive ==> erp.barker == (num[NoShortPreamble] > 0)
      ensures erp.rest == old(erp.rest)
    {
      if !erpActive {
        return;
      }
      if num[NonErp] == 1 {
        erp := erp.(nonErpPresent := true, useProtection := true);
      } else {
        erp := erp.(nonErpPresent := false, useProtection := false);
      }
      if num[NoShortPreamble] > 0 {
        erp := erp.(barker := true);
      } else {
        erp := erp.(barker := false);
      }
    }

    /** The non-ERP mark of a station: the beacon is updated only when the count leaves or reaches zero. */
    method MarkNonErp(id: StaId, on: bool)
      requires Counted() && ErpExact() && id in stas
      modifies `stas, `num, `erp
      ensures Counted() && ErpExact()
      ensures stas == old(stas)[id := SetTo(old(stas)[id], NonErp, on)]
      ensures SameHt(num, old(num))
      ensures erp.rest == old(erp.rest) && (!erpActive ==> erp == old(erp))
    {
      if on {
        var changed := Raise(id, NonErp);
        if changed && num[NonErp] == 1 {
          UpdateErp();
        }
      } else {
        var changed := Lower(id, NonErp);
        if changed && num[NonErp] == 0 {
          UpdateErp();
        }
      }
    }

    // ------------------------------------------------ HT operation mode

    /** The HT update: its result counts the changes, so it is zero exactly when nothing changed. */
    method HtUpdate() returns (changes: nat)
      requires Counted()
      modifies `htOpMode, `view
      ensures !htOption ==> htOpMode == old(htOpMode) && view == old(view)
      ensures htOption ==> htOpMode == Wanted(old(htOpMode), olbcHt) && view == Looked(num, olbcHt)
      ensures changes > 0 <==> htOpMode != old(htOpMode)
      ensures htOption ==>
                && (htOpMode.mode == Mixed <==> num[NoHt] != 0)
                && (htOpMode.mode == Ht20Associated <==> num[NoHt] == 0 && width40 && num[Ht20] != 0)
                && (htOpMode.mode == MayBeLegacy <==> num[NoHt] == 0 && !(width40 && num[Ht20] != 0) && olbcHt)
                && (htOpMode.nonGf <==> num[NoGreenfield] != 0) && (htOpMode.nonHt <==> num[NoHt] != 0 || olbcHt)
                && htOpMode.burst == old(htOpMode.burst) && htOpMode.rest == old(htOpMode.rest)
    {
      changes := 0;
      if !htOption {
        return;
      }
      view := Looked(num, olbcHt);
      changes := UpdateBits(num[NoGreenfield] != 0, num[NoHt] != 0);
      var mode := ModeFor(num[NoHt] != 0, num[Ht20] != 0, olbcHt, width40);
      if htOpMode.mode != mode {
        htOpMode := htOpMode.(mode := mode);
        changes := changes + 1;
      }
    }

    /** The two presence bits of the word. */
    method UpdateBits(noGf: bool, noHt: bool) returns (changes: nat)
      modifies `htOpMode
      ensures htOpMode == old(htOpMode).(nonGf := noGf, nonHt := noHt || olbcHt)
      ensures changes > 0 <==> htOpMode != old(htOpMode)
    {
      changes := 0;
      if !htOpMode.nonGf && noGf {
        htOpMode := htOpMode.(nonGf := true);
        changes := changes + 1;
      } else if htOpMode.nonGf && !noGf {
        htOpMode := htOpMode.(nonGf := false);
        changes := changes + 1;
      }
      if !htOpMode.nonHt && (noHt || olbcHt) {
        htOpMode := htOpMode.(nonHt := true);
        changes := changes + 1;
      } else if htOpMode.nonHt && !noHt && !olbcHt {
        htOpMode := htOpMode.(nonHt := false);
        changes := changes + 1;
      }
    }

    /** A second update in a row reports no change. */
    method UpdateTwice() returns (second: nat)
      requires Counted()
      modifies `htOpMode, `view
      ensures second == 0
      ensures htOption ==> htOpMode == Wanted(old(htOpMode), olbcHt)
    {
      var first := HtUpdate();
      second := HtUpdate();
    }

    // ------------------------------------------------------- the events

    /** The marks set and cleared on every association. */
    method JoinBasic(id: StaId, c: Caps)
      requires Counted() && ErpExact() && id in stas
      modifies `stas, `num, `erp
      ensures Counted() && ErpExact()
      ensures stas == old(stas)[id := JoinedBasic(old(stas)[id], c)]
      ensures SameHt(num, old(num))
      ensures erp.rest == old(erp.rest) && (!erpActive ==> erp == old(erp))
    {
      ghost var m, a := stas, SetTo(stas[id], NoShortPreamble, !c.shortPreamble);
      ghost var b := SetTo(a, NonErp, c.nonErp);
      SetTwice(m, id, a, b);
      SetTwice(m, id, b, SetTo(b, NoShortSlot, !c.shortSlot));
      Mark(id, NoShortPreamble, !c.shortPreamble);
      MarkNonErp(id, c.nonErp);
      Mark(id, NoShortSlot, !c.shortSlot);
    }

    method JoinHt(id: StaId, c: Caps)
      requires Counted() && id in stas
      modifies `stas, `num
      ensures Counted() && num[NonErp] == old(num[NonErp])
      ensures stas == old(stas)[id := JoinedHt(old(stas)[id], c)]
    {
      ghost var m := stas;
      Mark(id, NoHt, !c.ht);
      if c.ht {
        ghost var a := stas[id];
        ghost var b := RaisedIf(a, NoGreenfield, !c.greenfield);
        SetTwice(m, id, a, b);
        MarkIf(id, NoGreenfield, !c.greenfield);
        SetTwice(m, id, b, RaisedIf(b, Ht20, !c.width40));
        MarkIf(id, Ht20, !c.width40);
        SetTwice(m, id, stas[id], RaisedIf(stas[id], Intolerant40, c.intolerant40));
        MarkIf(id, Intolerant40, c.intolerant40);
      }
    }

    /** A mark that is only ever set. */
    method MarkIf(id: StaId, f: Flag, on: bool)
      requires Counted() && id in stas && !f.NonErp?
      modifies `stas, `num
      ensures Counted() && num[NonErp] == old(num[NonErp])
      ensures stas == old(stas)[id := RaisedIf(old(stas)[id], f, on)]
    {
      if on {
        Mark(id, f, true);
      } else {
        assert stas[id := stas[id]] == stas;
      }
    }

    method Meet(id: StaId)
      requires Counted()
      modifies `stas
      ensures Counted() && stas == Marked(old(stas), Event.Meet(id), htEnabled)
    {
      if id !in stas {
        ghost var m := stas;
        stas := stas[id := {}];
        assert forall f :: With(stas, f) == With(m, f);
      }
    }

    method JoinMarks(id: StaId, c: Caps)
      requires Counted() && ErpExact()
      modifies `stas, `num, `erp
      ensures Counted() && ErpExact() && stas == Marked(old(stas), Event.Join(id, c), htEnabled)
      ensures erp.rest == old(erp.rest) && (htEnabled || SameHt(num, old(num)))
    {
      JoinMaps(stas, id, c, htEnabled);
      Meet(id);
      JoinBasic(id, c);
      if htEnabled {
        JoinHt(id, c);
      }
    }

    method Join(id: StaId, c: Caps)
      requires Valid()
      modifies `stas, `num, `erp, `htOpMode, `view
      ensures Valid() && stas == Marked(old(stas), Event.Join(id, c), htEnabled)
      ensures erp.rest == old(erp.rest)
      ensures view == if htEnabled && htOption then Looked(num, olbcHt) else old(view)
    {
      JoinMarks(id, c);
      if htEnabled {
        var _ := HtUpdate();
      }
    }

    /** Here the source guards the decrement and warns; the warning never fires. */
    method LowerIntolerant(id: StaId)
      requires Counted() && id in stas
      modifies `stas, `num
      ensures Counted() && stas == old(stas)[id := old(stas)[id] - {Intolerant40}]
      ensures num[NonErp] == old(num)[NonErp]
    {
      if Intolerant40 in stas[id] {
        LowerCounts(stas, id, Intolerant40);
        stas := stas[id := stas[id] - {Intolerant40}];
        if num[Intolerant40] > 0 {
          num := num[Intolerant40 := num[Intolerant40] - 1];
        } else {
          assert false;
        }
      } else {
        assert stas[id] - {Intolerant40} == stas[id];
      }
    }

    /** The HT marks of a leaving station. */
    method LeaveHt(id: StaId)
      requires Counted() && id in stas
      modifies `stas, `num
      ensures Counted() && num[NonErp] == old(num[NonErp])
      ensures stas == old(stas)[id := (((old(stas)[id] - {NoGreenfield}) - {NoHt}) - {Ht20}) - {Intolerant40}]
    {
      Mark(id, NoGreenfield, false);
      Mark(id, NoHt, false);
      LeaveWidth(id);
    }

    method LeaveWidth(id: StaId)
      requires Counted() && id in stas
      modifies `stas, `num
      ensures Counted() && num[NonErp] == old(num[NonErp])
      ensures stas == old(stas)[id := (old(stas)[id] - {Ht20}) - {Intolerant40}]
    {
      Mark(id, Ht20, false);
      LowerIntolerant(id);
    }

    method LeaveBasic(id: StaId)
      requires Counted() && ErpExact() && id in stas
      modifies `stas, `num, `erp
      ensures Counted() && ErpExact()
      ensures stas == old(stas)[id := ((old(stas)[id] - {NoShortPreamble}) - {NonErp}) - {NoShortSlot}]
      ensures erp.rest == old(erp.rest)
    {
      Mark(id, NoShortPreamble, false);
      MarkNonErp(id, false);
      Mark(id, NoShortSlot, false);
    }

    method LeaveMarks(id: StaId)
      requires Counted() && ErpExact() && id in stas
      modifies `stas, `num, `erp
      ensures Counted() && ErpExact() && stas == old(stas)[id := {}]
      ensures erp.rest == old(erp.rest)
    {
      NoMarksLeft(stas[id]);
      ghost var s := ((stas[id] - {NoShortPreamble}) - {NonErp}) - {NoShortSlot};
      SetTwice(stas, id, s, {});
      LeaveBasic(id);
      LeaveHt(id);
    }

    /** The update when a station leaves; its record stays until it is freed. */
    method Leave(id: StaId)
      requires Valid()
      modifies `stas, `num, `erp, `htOpMode, `view
      ensures Valid() && stas == Marked(old(stas), Event.Leave(id), htEnabled)
      ensures erp.rest == old(erp.rest)
      ensures view == if id in old(stas) && htOption then Looked(num, olbcHt) else old(view)
    {
      if id !in stas {
        return;
      }
      LeaveMarks(id);
      var _ := HtUpdate();
    }

    /** `rtw_free_stainfo`: the record goes as it is, and neither counters nor beacon are touched. */
    method Free(id: StaId)
      requires Valid()
      modifies `stas, `drift
      ensures Valid() && stas == old(stas) - {id}
      ensures Drifts(old(drift), drift, old(stas), Event.Free(id))
      ensures id in old(stas) && Counts(old(stas), num) ==> (Counts(stas, num) <==> old(stas)[id] == {})
    {
      FreeDrifts(stas, num, drift, id);
      if id in stas && Counts(stas, num) {
        FreeKeepsIff(stas, id, num);
      }
      drift := map f | f in drift :: Drifted(drift[f], f, stas, Event.Free(id));
      stas := stas - {id};
    }

    method Intolerant(id: StaId)
      requires Valid()
      modifies `stas, `num
      ensures Valid() && stas == Marked(old(stas), Event.Intolerant(id), htEnabled)
    {
      if id in stas {
        var _ := Raise(id, Intolerant40);
      }
    }

    /** The periodic check; `due` holds on every tenth one. */
    method Check(due: bool)
      requires Valid()
      modifies `htOpMode, `view, `olbc, `olbcHt
      ensures Valid()
      ensures olbc == old(olbc && !olbcHt) && olbcHt == old(olbcHt && !olbc)
      ensures view == if htOption && old(olbc == olbcHt) && (old(olbcHt) || due) then Looked(num, old(olbcHt))
                      else old(view)
    {
      if due && !olbc && !olbcHt {
        var _ := HtUpdate();
      }
      if olbc && olbcHt {
        var _ := HtUpdate();
        olbc, olbcHt := false, false;
      }
    }

    /** `rtw_ap_check_scan`: legacy networks are noted, and the count of stations without HT starts again. */
    method Scan(legacy: bool)
      requires Valid()
      modifies `num, `drift, `olbc, `olbcHt
      ensures Valid() && olbc == (old(olbc) || legacy) && olbcHt == (old(olbcHt) || legacy)
      ensures num == old(num)[NoHt := 0] && Drifts(old(drift), drift, stas, Event.Scan(legacy))
    {
      ScanDrifts(stas, num, drift, legacy);
      if legacy {
        olbc, olbcHt := true, true;
      }
      num, drift := num[NoHt := 0], drift[NoHt := -|With(stas, NoHt)|];
    }

    /** Collecting a scan result without HT, before the bandwidth is settled. */
    method Collect()
      requires Valid()
      modifies `num, `drift
      ensures Valid() && num == old(num)[NoHt := old(num[NoHt]) + 1]
      ensures Drifts(old(drift), drift, stas, Event.Collect)
    {
      CollectDrifts(stas, num, drift);
      num, drift := num[NoHt := num[NoHt] + 1], drift[NoHt := drift[NoHt] + 1];
    }

    /** The end of a channel set-up writes the mode by itself; the next HT update makes up for it. */
    method Switch()
      requires Valid()
      modifies `htOpMode, `view
      ensures Valid() && view == old(view).(forced := old(view.forced) || olbc || olbcHt)
      ensures htOpMode == if olbc || olbcHt then old(htOpMode).(mode := MayBeLegacy) else old(htOpMode)
    {
      if olbc || olbcHt {
        htOpMode, view := htOpMode.(mode := MayBeLegacy), view.(forced := true);
      }
    }

    /** The events that stations cause. */
    method StepStation(e: Event)
      requires Valid() && (e.Meet? || e.Join? || e.Intolerant? || e.Leave? || e.Free?)
      modifies `stas, `num, `erp, `htOpMode, `view, `drift
      ensures Valid() && stas == Marked(old(stas), e, htEnabled) && erp.rest == old(erp.rest)
      ensures Drifts(old(drift), drift, old(stas), e)
      ensures view == ViewBy(old(view), Looked(num, olbcHt), old(stas), olbcHt, e, htEnabled, htOption)
    {
      if !e.Free? {
        DriftStays(stas, num, drift, e);
      }
      match e
      case Meet(id) => Meet(id);
      case Join(id, c) => Join(id, c);
      case Intolerant(id) => Intolerant(id);
      case Leave(id) => Leave(id);
      case Free(id) => Free(id);
    }

    /** The events about other networks and the channel. */
    method StepAir(e: Event)
      requires Valid() && (e.Hear? || e.Check? || e.Scan? || e.Collect? || e.Switch?)
      modifies `num, `htOpMode, `view, `drift, `olbc, `olbcHt
      ensures Valid() && Drifts(old(drift), drift, stas, e)
      ensures old(olbc == olbcHt) ==>
                && olbc == olbcHt == HeardBy(old(olbcHt), e)
                && view == ViewBy(old(view), Looked(num, old(olbcHt)), stas, old(olbcHt), e, htEnabled, htOption)
    {
      if !e.Scan? && !e.Collect? {
        DriftStays(stas, num, drift, e);
      }
      match e
      case Hear => olbc, olbcHt := true, true;
      case Check(due) => Check(due);
      case Scan(legacy) => Scan(legacy);
      case Collect => Collect();
      case Switch => Switch();
    }

    method Step(e: Event)
      requires Valid()
      modifies this
      ensures Valid() && stas == Marked(old(stas), e, htEnabled) && erp.rest == old(erp.rest)
      ensures Drifts(old(drift), drift, old(stas), e)
      ensures old(olbc == olbcHt) ==>
                && olbc == olbcHt == HeardBy(old(olbcHt), e)
                && view == ViewBy(old(view), Looked(num, old(olbcHt)), old(stas), old(olbcHt), e, htEnabled, htOption)
    {
      if e.Meet? || e.Join? || e.Intolerant? || e.Leave? || e.Free? {
        StepStation(e);
      } else {
        StepAir(e);
      }
    }

    // ------------------------------------------------------------- runs

    /** The state after a run. */
    ghost predicate Follows(run: seq<Event>)
      reads this
    {
      && Valid() && stas == MarksAfter(run, htEnabled)
      && DriftsAre(drift, run, htEnabled)
      && olbc == olbcHt == Heard(run) && view == ViewAfter(run, htEnabled, htOption)
    }

    lemma Numbered(run: seq<Event>)
      requires Follows(run)
      ensures forall f: Flag :: num[f] == Num(run, f, htEnabled)
    {
    }

    method Advance(e: Event, ghost run: seq<Event>)
      requires Follows(run)
      modifies this
      ensures Follows(run + [e]) && erp.rest == old(erp.rest)
    {
      ghost var next := run + [e];
      assert next[..|run|] == run && next[|run|] == e;
      Step(e);
      DriftsNext(run, e, old(drift), drift, htEnabled);
      LookedIsNow(next, stas, num, drift, Heard(run), htEnabled);
    }

    /** Some session calls for the mark, or a record was freed with it. */
    ghost predicate Calls(run: seq<Event>, f: Flag) {
      Some(Sessions(run), f, htEnabled) || Loses(run, f, htEnabled)
    }

    /**
     Every run from the start of the access point. Each counter is the number of stations with its mark
     plus its drift, so it is exact exactly if no record was freed with the mark (for stations without HT:
     and no scan came in between). The beacon asks for protection exactly when some station last announced
     that it is not ERP, or the record of such a station was freed. The mode word is the one for what the
     last update found, which is what the sessions call for unless a scan or channel set-up came in between.
     */
    method Run(run: seq<Event>)
      requires Valid() && Fresh()
      modifies this
      ensures Valid() && stas == MarksAfter(run, htEnabled) && erp.rest == old(erp.rest)
      ensures forall f: Flag :: num[f] == Num(run, f, htEnabled)
      ensures forall f: Flag :: Unscanned(run, f) ==> (num[f] == |With(stas, f)| <==> !Loses(run, f, htEnabled))
      ensures erpActive ==> Protects(erp, Calls(run, NonErp))
      ensures htOpMode == WordFor(ViewAfter(run, htEnabled, htOption), width40)
      ensures htOption && Updated(run) ==>
        htOpMode == Adapted(CLEAR, Calls(run, NoHt), Calls(run, NoGreenfield), Calls(run, Ht20),
                            ViewAfter(run, htEnabled, true).legacy, width40)
    {
      for k := 0 to |run|
        invariant Follows(run[..k]) && erp.rest == old(erp.rest)
      {
        assert run[..k + 1] == run[..k] + [run[k]];
        Advance(run[k], run[..k]);
      }
      assert run[..|run|] == run;
      Numbered(run);
      Exact(run);
      WordMeans(run);
    }

    lemma Exact(run: seq<Event>)
      requires Follows(run)
      ensures forall f: Flag :: Unscanned(run, f) ==> (num[f] == |With(stas, f)| <==> !Loses(run, f, htEnabled))
      ensures erpActive ==> Protects(erp, Calls(run, NonErp))
    {
      forall f: Flag | Unscanned(run, f) ensures num[f] == |With(stas, f)| <==> !Loses(run, f, htEnabled) {
        NumExactIff(run, f, htEnabled);
      }
      NumExactIff(run, NonErp, htEnabled);
    }

    lemma WordMeans(run: seq<Event>)
      requires Follows(run)
      ensures htOption && Updated(run) ==>
        htOpMode == Adapted(CLEAR, Calls(run, NoHt), Calls(run, NoGreenfield), Calls(run, Ht20),
                            ViewAfter(run, htEnabled, true).legacy, width40)
    {
      if htOption && Updated(run) {
        ViewIsCurrent(run, htEnabled);
        NumExactIff(run, NoHt, htEnabled);
        NumExactIff(run, NoGreenfield, htEnabled);
        NumExactIff(run, Ht20, htEnabled);
      }
    }
  }

  /** A leaving station has lost every mark. */
  lemma NoMarksLeft(s: set<Flag>)
    ensures var basic := ((s - {NoShortPreamble}) - {NonErp}) - {NoShortSlot};
            (((basic - {NoGreenfield}) - {NoHt}) - {Ht20}) - {Intolerant40} == {}
  {
    forall f | f in s
      ensures f in {NoShortPreamble, NonErp, NoShortSlot, NoGreenfield, NoHt, Ht20, Intolerant40} {
      match f
      case NoShortPreamble => case NonErp => case NoShortSlot => case NoHt =>
      case NoGreenfield => case Ht20 => case Intolerant40 =>
    }
  }
}
