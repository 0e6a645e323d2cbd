/**
 What the access point notes about its stations: seven marks per station
 record, set and cleared as stations associate, associate again, report and
 leave. `Marked` is the effect of one event; `Means` says what the marks mean in
 terms of everything the station said since its record was made or last cleared.
 */
module StationMarks {

  type StaId = nat

  /** One mark in the station record, with one counter `num_sta_*` each. */
  datatype Flag =
    | NoShortPreamble | NonErp | NoShortSlot
    | NoHt | NoGreenfield | Ht20 | Intolerant40

  /** What a station announces when it associates. */
  datatype Caps = Caps(
    shortPreamble: bool, nonErp: bool, shortSlot: bool,
    ht: bool, greenfield: bool, width40: bool, intolerant40: bool)

  datatype Event =
    | Meet(id: StaId)                  // a station record is allocated
    | Join(id: StaId, caps: Caps)      // association or re-association; makes a missing record
    | Intolerant(id: StaId)            // 20/40 coexistence report with the 40 MHz intolerant bit
    | Leave(id: StaId)                 // the update when a station leaves; its record is freed later
    | Free(id: StaId)                  // the record is freed, whatever marks it carries
    | Hear                             // a beacon of a legacy access point
    | Check(due: bool)                 // the two-second check; due on every tenth one
    | Scan(legacy: bool)               // new beacon data: the last scan is gone through for legacy networks
    | Collect                          // a scan result without HT is counted as a station without HT
    | Switch                           // the operating channel has been set up

  type Marks = map<StaId, set<Flag>>

  function MarksOf(m: Marks, id: StaId): set<Flag> {
    if id in m then m[id] else {}
  }

  /** The stations that carry a mark. */
  function With(m: Marks, f: Flag): set<StaId> {
    set id | id in m && f in m[id]
  }

  function SetTo(s: set<Flag>, f: Flag, on: bool): set<Flag> {
    if on then s + {f} else s - {f}
  }

  function RaisedIf(s: set<Flag>, f: Flag, on: bool): set<Flag> {
    if on then s + {f} else s
  }

  /** The three marks that do not depend on HT support. */
  function JoinedBasic(s: set<Flag>, c: Caps): set<Flag> {
    SetTo(SetTo(SetTo(s, NoShortPreamble, !c.shortPreamble), NonErp, c.nonErp), NoShortSlot, !c.shortSlot)
  }

  /** The HT marks: only NoHt is ever cleared by associating again. */
  function JoinedHt(s: set<Flag>, c: Caps): set<Flag> {
    if c.ht then
      RaisedIf(RaisedIf(RaisedIf(s - {NoHt}, NoGreenfield, !c.greenfield), Ht20, !c.width40),
               Intolerant40, c.intolerant40)
    else s + {NoHt}
  }

  function Joined(s: set<Flag>, c: Caps, htEnabled: bool): set<Flag> {
    var b := JoinedBasic(s, c);
    if htEnabled then JoinedHt(b, c) else b
  }

  function Marked(m: Marks, e: Event, htEnabled: bool): Marks {
    match e
    case Meet(id) => if id in m then m else m[id := {}]
    case Join(id, c) => m[id := Joined(MarksOf(m, id), c, htEnabled)]
    case Intolerant(id) => if id in m then m[id := m[id] + {Intolerant40}] else m
    case Leave(id) => if id in m then m[id := {}] else m
    case Free(id) => m - {id}
    case _ => m
  }

  function MarksAfter(run: seq<Event>, htEnabled: bool): Marks
    decreases |run|
  {
    if run == [] then map[]
    else Marked(MarksAfter(run[..|run| - 1], htEnabled), run[|run| - 1], htEnabled)
  }

  // ------------------------------------------------------ what marks mean

  /** All a station said since its record was made or cleared: its associations in order, and any intolerance report. */
  datatype Session = Session(joins: seq<Caps>, reported: bool)

  function Told(s: map<StaId, Session>, e: Event): map<StaId, Session> {
    match e
    case Meet(id) => if id in s then s else s[id := Session([], false)]
    case Join(id, c) =>
      var was := if id in s then s[id] else Session([], false);
      s[id := was.(joins := was.joins + [c])]
    case Intolerant(id) => if id in s then s[id := s[id].(reported := true)] else s
    case Leave(id) => if id in s then s[id := Session([], false)] else s
    case Free(id) => s - {id}
    case _ => s
  }

  function Sessions(run: seq<Event>): map<StaId, Session>
    decreases |run|
  {
    if run == [] then map[] else Told(Sessions(run[..|run| - 1]), run[|run| - 1])
  }

  function Last(s: Session): Caps
    requires s.joins != []
  {
    s.joins[|s.joins| - 1]
  }

  /** When a session calls for a mark. */
  predicate Means(s: Session, f: Flag, htEnabled: bool) {
    match f
    case NoShortPreamble => s.joins != [] && !Last(s).shortPreamble
    case NonErp => s.joins != [] && Last(s).nonErp
    case NoShortSlot => s.joins != [] && !Last(s).shortSlot
    case NoHt => htEnabled && s.joins != [] && !Last(s).ht
    case NoGreenfield => htEnabled && exists c :: c in s.joins && c.ht && !c.greenfield
    case Ht20 => htEnabled && exists c :: c in s.joins && c.ht && !c.width40
    case Intolerant40 => s.reported || (htEnabled && exists c :: c in s.joins && c.ht && c.intolerant40)
  }

  /** The marks m are those the sessions call for. */
  ghost predicate Agree(m: Marks, s: map<StaId, Session>, htEnabled: bool) {
    m.Keys == s.Keys && forall id, f :: id in m ==> (f in m[id] <==> Means(s[id], f, htEnabled))
  }

  lemma JoinMeans(marks: set<Flag>, s: Session, c: Caps, f: Flag, htEnabled: bool)
    requires forall g :: g in marks <==> Means(s, g, htEnabled)
    ensures f in Joined(marks, c, htEnabled) <==> Means(s.(joins := s.joins + [c]), f, htEnabled)
  {
  }

  lemma AgreeStep(m: Marks, s: map<StaId, Session>, e: Event, htEnabled: bool)
    requires Agree(m, s, htEnabled)
    ensures Agree(Marked(m, e, htEnabled), Told(s, e), htEnabled)
  {
    if e.Join? {
      var was := if e.id in s then s[e.id] else Session([], false);
      forall f ensures f in Joined(MarksOf(m, e.id), e.caps, htEnabled)
                       <==> Means(was.(joins := was.joins + [e.caps]), f, htEnabled) {
        JoinMeans(MarksOf(m, e.id), was, e.caps, f, htEnabled);
      }
    }
  }

  /** Over every run, each mark stands exactly when the station's session calls for it. */
  lemma {:induction false} MarksMeanSessions(run: seq<Event>, htEnabled: bool)
    ensures Agree(MarksAfter(run, htEnabled), Sessions(run), htEnabled)
    decreases |run|
  {
    if run != [] {
      MarksMeanSessions(run[..|run| - 1], htEnabled);
      AgreeStep(MarksAfter(run[..|run| - 1], htEnabled), Sessions(run[..|run| - 1]), run[|run| - 1], htEnabled);
    }
  }

  /** Some station carries the mark exactly when some session calls for it. */
  lemma WithMeans(m: Marks, s: map<StaId, Session>, f: Flag, htEnabled: bool)
    requires Agree(m, s, htEnabled)
    ensures |With(m, f)| > 0 <==> Some(s, f, htEnabled)
  {
    if |With(m, f)| > 0 {
      var id :| id in With(m, f);
      assert id in s && Means(s[id], f, htEnabled);
    } else {
      forall id | id in s ensures !Means(s[id], f, htEnabled) {
        assert id !in With(m, f);
      }
    }
  }

  ghost predicate Some(s: map<StaId, Session>, f: Flag, htEnabled: bool) {
    exists id :: id in s && Means(s[id], f, htEnabled)
  }

  lemma RejoinMeans(a: Caps, b: Caps)
    ensures (forall f :: Means(Session([a, b], false), f, true) <==> Means(Session([b], false), f, true))
            <==> Covers(a, b)
  {
    var two, one := Session([a, b], false), Session([b], false);
    assert Last(two) == b == Last(one) && a in two.joins && b in two.joins && b in one.joins;
    assert forall c :: c in two.joins <==> c == a || c == b;
    assert forall c :: c in one.joins <==> c == b;
    if !Covers(a, b) {
      var f := if !a.greenfield && !(b.ht && !b.greenfield) then NoGreenfield
               else if !a.width40 && !(b.ht && !b.width40) then Ht20 else Intolerant40;
      assert Means(two, f, true) && !Means(one, f, true);
    }
  }

  /** The later announcement b does not improve on a in greenfield support, width or tolerance. */
  predicate Covers(a: Caps, b: Caps) {
    a.ht ==>
      && (!a.greenfield ==> b.ht && !b.greenfield)
      && (!a.width40 ==> b.ht && !b.width40)
      && (a.intolerant40 ==> b.ht && b.intolerant40)
  }

  /**
   A station that associates twice carries the marks of its second association
   alone exactly when the second one does not improve on the first in greenfield
   support, width or tolerance: those three marks are never taken back.
   */
  lemma RejoinForgets(s: set<Flag>, a: Caps, b: Caps)
    requires s == {}
    ensures Joined(Joined(s, a, true), b, true) == Joined(s, b, true)
            <==> Covers(a, b)
  {
    var twice, once := Joined(Joined(s, a, true), b, true), Joined(s, b, true);
    forall f ensures f in twice <==> Means(Session([a, b], false), f, true) {
      forall g ensures g in Joined(s, a, true) <==> Means(Session([a], false), g, true) {
        JoinMeans(s, Session([], false), a, g, true);
        assert [] + [a] == [a];
      }
      JoinMeans(Joined(s, a, true), Session([a], false), b, f, true);
      assert [a] + [b] == [a, b];
    }
    forall f ensures f in once <==> Means(Session([b], false), f, true) {
      JoinMeans(s, Session([], false), b, f, true);
      assert [] + [b] == [b];
    }
    RejoinMeans(a, b);
  }
}
