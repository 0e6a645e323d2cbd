/**
 What the transmit protocol's state says about the events that led to it: the
 counter is a tally of events, the place of a transfer tells what has happened to
 it, and one failed submission rules out auto suspend for good.
 */
module TxHistory {

  import opened TxProtocol

  // ------------------------------------------------------------ the counter

  /** Transfers that inc_tx counted: those that found the device awake. */
  ghost function Accepted(s: State, es: seq<Event>): nat
    requires Legal(s, es)
    decreases |es|
  {
    if es == [] then 0
    else (if es[0].IncTx? && !s.suspending then 1 else 0) + Accepted(Apply(s, es[0]), es[1..])
  }

  function Played(es: seq<Event>): nat
    decreases |es|
  {
    if es == [] then 0 else (if es[0].CountOne? then 1 else 0) + Played(es[1..])
  }

  function Completed(es: seq<Event>): nat
    decreases |es|
  {
    if es == [] then 0 else (if es[0].Complete? then 1 else 0) + Completed(es[1..])
  }

  /** tx_in_flight counts transfers accepted and played, less those completed; failures are never taken back. */
  lemma {:induction false} CounterIsTally(s: State, es: seq<Event>)
    requires Legal(s, es)
    ensures Run(s, es).inFlight == s.inFlight + Accepted(s, es) + Played(es) - Completed(es)
    decreases |es|
  {
    if es != [] {
      CounterIsTally(Apply(s, es[0]), es[1..]);
    }
  }

  // ------------------------------------------------------------ prefixes of a run

  lemma {:induction false} Upto(s: State, es: seq<Event>, n: nat)
    requires Legal(s, es) && n < |es|
    ensures Legal(s, es[..n]) && Enabled(Run(s, es[..n]), es[n])
    ensures Legal(s, es[..n + 1]) && Run(s, es[..n + 1]) == Apply(Run(s, es[..n]), es[n])
    decreases n
  {
    if n == 0 {
      assert es[..0] == [] && es[..1] == [es[0]] && [es[0]][1..] == [];
    } else {
      var t := es[1..];
      Upto(Apply(s, es[0]), t, n - 1);
      assert es[..n][1..] == t[..n - 1] && es[..n + 1][1..] == t[..n];
    }
  }

  ghost function StateAt(es: seq<Event>, n: nat): State
    requires Legal(INITIAL, es) && n < |es|
  {
    Upto(INITIAL, es, n);
    Run(INITIAL, es[..n])
  }

  /** The last event of a run. */
  lemma LastOf(es: seq<Event>)
    requires Legal(INITIAL, es) && es != []
    ensures var n := |es| - 1;
            && Legal(INITIAL, es[..n]) && es == es[..n] + [es[n]]
            && Enabled(StateAt(es, n), es[n]) && Run(INITIAL, es) == Apply(StateAt(es, n), es[n])
            && StateAt(es, n) == Run(INITIAL, es[..n])
  {
    var n := |es| - 1;
    Pieces(es);
    Upto(INITIAL, es, n);
    assert es[..n + 1] == es;
  }

  lemma Pieces(es: seq<Event>)
    requires es != []
    ensures es[..|es|] == es && es == es[..|es| - 1] + [es[|es| - 1]]
  {
  }

  lemma EarlierState(es: seq<Event>, n: nat, k: nat)
    requires Legal(INITIAL, es) && k < n < |es|
    ensures Legal(INITIAL, es[..n]) && StateAt(es, k) == StateAt(es[..n], k)
  {
    Upto(INITIAL, es, n);
    assert es[..n][..k] == es[..k];
  }

  // ------------------------------------------------------------ what has happened to a transfer

  /** The event submits the transfer, with this result: its sender does, or it is played from the head of the queue. */
  predicate Submits(s: State, e: Event, u: Urb, ok: bool) {
    e == Submit(u, ok) || (e == PlayOne(ok) && s.deferred != [] && s.deferred[0] == u)
  }

  ghost predicate WasSubmitted(es: seq<Event>, u: Urb, ok: bool)
    requires Legal(INITIAL, es)
  {
    exists k: nat :: k < |es| && Submits(StateAt(es, k), es[k], u, ok)
  }

  predicate DropsFrom(s: State, e: Event, u: Urb) {
    Scuttles(e) && u in s.deferred
  }

  /** The transfer stood in the queue when that was scuttled. */
  ghost predicate WasScuttled(es: seq<Event>, u: Urb)
    requires Legal(INITIAL, es)
  {
    exists k: nat :: k < |es| && DropsFrom(StateAt(es, k), es[k], u)
  }

  lemma SubmittedOneMore(es: seq<Event>, u: Urb, ok: bool)
    requires Legal(INITIAL, es) && es != []
    ensures var n := |es| - 1;
            Legal(INITIAL, es[..n]) &&
            (WasSubmitted(es, u, ok) <==> WasSubmitted(es[..n], u, ok) || Submits(StateAt(es, n), es[n], u, ok))
  {
    LastOf(es);
    var n := |es| - 1;
    if WasSubmitted(es, u, ok) && !Submits(StateAt(es, n), es[n], u, ok) {
      var k: nat :| k < |es| && Submits(StateAt(es, k), es[k], u, ok);
      EarlierState(es, n, k);
      assert Submits(StateAt(es[..n], k), es[..n][k], u, ok);
    }
    if WasSubmitted(es[..n], u, ok) {
      var k: nat :| k < n && Submits(StateAt(es[..n], k), es[..n][k], u, ok);
      EarlierState(es, n, k);
      assert Submits(StateAt(es, k), es[k], u, ok);
    }
  }

  lemma ScuttledOneMore(es: seq<Event>, u: Urb)
    requires Legal(INITIAL, es) && es != []
    ensures var n := |es| - 1;
            Legal(INITIAL, es[..n]) &&
            (WasScuttled(es, u) <==> WasScuttled(es[..n], u) || DropsFrom(StateAt(es, n), es[n], u))
  {
    LastOf(es);
    var n := |es| - 1;
    if WasScuttled(es, u) && !DropsFrom(StateAt(es, n), es[n], u) {
      var k: nat :| k < |es| && DropsFrom(StateAt(es, k), es[k], u);
      EarlierState(es, n, k);
      assert DropsFrom(StateAt(es[..n], k), es[..n][k], u);
    }
    if WasScuttled(es[..n], u) {
      var k: nat :| k < n && DropsFrom(StateAt(es[..n], k), es[..n][k], u);
      EarlierState(es, n, k);
      assert DropsFrom(StateAt(es, k), es[k], u);
    }
  }

  /** What has happened to a transfer. */
  datatype Past = Past(known: bool, sent: bool, failed: bool, back: bool, ended: bool, dropped: bool)

  datatype Where = Unknown | Known(place: Place)

  function WhereIs(s: State, u: Urb): Where {
    if u in s.place then Known(s.place[u]) else Unknown
  }

  /** The place of a transfer tells its past. */
  predicate Tells(w: Where, p: Past) {
    && (p.known <==> w.Known?)
    && (w == Known(Outstanding) <==> p.sent && !p.back)
    && (w == Known(Finishing) <==> p.back && !p.ended)
    && (w == Known(Done) <==> p.ended)
    && (w == Known(Failed) <==> p.failed)
    && (w == Known(Dropped) <==> p.dropped)
    && (p.ended ==> p.back) && (p.back ==> p.sent)
  }

  function PastAfter(p: Past, s: State, e: Event, u: Urb): Past {
    Past(p.known || e == IncTx(u), p.sent || Submits(s, e, u, true), p.failed || Submits(s, e, u, false),
         p.back || e == GiveBack(u), p.ended || e == Complete(u), p.dropped || DropsFrom(s, e, u))
  }

  /** An event that is about another transfer, or none, leaves this one where it is. */
  lemma Unmoved(s: State, e: Event, u: Urb)
    requires Inv(s) && Enabled(s, e)
    requires !Submits(s, e, u, true) && !Submits(s, e, u, false) && !DropsFrom(s, e, u)
    requires e !in {IncTx(u), Queue(u), GiveBack(u), Complete(u)}
    ensures WhereIs(Apply(s, e), u) == WhereIs(s, u)
  {
  }

  lemma Scuttled(s: State, e: Event, u: Urb)
    requires Inv(s) && Enabled(s, e) && DropsFrom(s, e, u)
    ensures At(s, u, Deferred) && At(Apply(s, e), u, Dropped)
  {
  }

  lemma Submitted(s: State, e: Event, u: Urb, ok: bool)
    requires Inv(s) && Enabled(s, e) && Submits(s, e, u, ok)
    ensures (At(s, u, Claimed) || At(s, u, Deferred)) && At(Apply(s, e), u, if ok then Outstanding else Failed)
  {
    assert u in s.deferred <==> At(s, u, Deferred);
  }

  lemma Moved(s: State, e: Event, u: Urb)
    requires Inv(s) && Enabled(s, e) && e in {IncTx(u), Queue(u), GiveBack(u), Complete(u)}
    ensures var v, w := WhereIs(s, u), WhereIs(Apply(s, e), u);
            match e
            case IncTx(_) => v == Unknown && w in {Known(Claimed), Known(Refused)}
            case Queue(_) => v == Known(Refused) && w == Known(Deferred)
            case GiveBack(_) => v == Known(Outstanding) && w == Known(Finishing)
            case _ => v == Known(Finishing) && w == Known(Done)
  {
  }

  lemma MovedTells(s: State, e: Event, u: Urb, p: Past)
    requires Inv(s) && Enabled(s, e) && Tells(WhereIs(s, u), p)
    requires e in {IncTx(u), Queue(u), GiveBack(u), Complete(u)}
    ensures Tells(WhereIs(Apply(s, e), u), PastAfter(p, s, e, u))
  {
    Moved(s, e, u);
    assert PastAfter(p, s, e, u)
           == p.(known := p.known || e.IncTx?, back := p.back || e.GiveBack?, ended := p.ended || e.Complete?);
  }

  lemma TellsStep(s: State, e: Event, u: Urb, p: Past)
    requires Inv(s) && Enabled(s, e) && Tells(WhereIs(s, u), p)
    ensures Tells(WhereIs(Apply(s, e), u), PastAfter(p, s, e, u))
  {
    var q := PastAfter(p, s, e, u);
    if DropsFrom(s, e, u) {
      Scuttled(s, e, u);
      assert q == p.(dropped := true);
    } else if Submits(s, e, u, true) {
      Submitted(s, e, u, true);
      assert q == p.(sent := true);
    } else if Submits(s, e, u, false) {
      Submitted(s, e, u, false);
      assert q == p.(failed := true);
    } else if e in {IncTx(u), Queue(u), GiveBack(u), Complete(u)} {
      MovedTells(s, e, u, p);
    } else {
      Unmoved(s, e, u);
      assert q == p;
    }
  }

  ghost function PastOf(es: seq<Event>, u: Urb): Past
    requires Legal(INITIAL, es)
  {
    Past(IncTx(u) in es, WasSubmitted(es, u, true), WasSubmitted(es, u, false), GiveBack(u) in es, Complete(u) in es,
         WasScuttled(es, u))
  }

  /**
   In every run from the start, the place of a transfer tells what has happened to it: it is outstanding exactly if
   a submission succeeded and it has not been given back, finishing until its completion is counted, failed exactly
   if a submission failed, dropped exactly if the queue was scuttled with it, and known exactly if it was sent.
   */
  lemma {:induction false} PlaceTells(es: seq<Event>, u: Urb)
    requires Legal(INITIAL, es)
    ensures Tells(WhereIs(Run(INITIAL, es), u), PastOf(es, u))
    decreases |es|
  {
    if es != [] {
      var n := |es| - 1;
      LastOf(es);
      PlaceTells(es[..n], u);
      InvInitially();
      InvRun(INITIAL, es[..n]);
      SubmittedOneMore(es, u, true);
      SubmittedOneMore(es, u, false);
      ScuttledOneMore(es, u);
      TellsStep(StateAt(es, n), es[n], u, PastOf(es[..n], u));
    }
  }

  // ------------------------------------------------------------ failures

  predicate Fails(e: Event) {
    (e.Submit? || e.PlayOne?) && !e.ok
  }

  lemma FailsStep(s: State, e: Event) returns (u: Urb)
    requires Inv(s) && Enabled(s, e) && Fails(e)
    ensures At(Apply(s, e), u, Failed)
  {
    u := if e.Submit? then e.u else s.deferred[0];
  }

  /**
   One failed submission, by a sender or from the queue, and auto suspend never succeeds again: whatever happens
   afterwards, no suspension is an automatic one and the counter stays above zero.
   */
  lemma {:induction false} OneFailureIsEnough(s: State, es: seq<Event>)
    requires Inv(s) && Legal(s, es) && exists e :: e in es && Fails(e)
    ensures var t := Run(s, es);
            !t.autoSuspended && (t.pm != Playing(true) ==> t.inFlight > 0)
    decreases |es|
  {
    var e, t := es[0], Apply(s, es[0]);
    InvStep(s, e);
    if Fails(e) {
      var u := FailsStep(s, e);
      FailureBlocksAutoSuspend(t, es[1..], u);
      InvRun(t, es[1..]);
      assert u in Counted(Run(t, es[1..]));
    } else {
      assert forall x :: x in es ==> x == e || x in es[1..];
      OneFailureIsEnough(t, es[1..]);
    }
  }

  /** So an auto suspend that is decided after a failure is turned down. */
  lemma AutoSuspendRefused(s: State, es: seq<Event>)
    requires Inv(s) && Legal(s, es) && (exists e :: e in es && Fails(e)) && Run(s, es).pm == Deciding(true)
    ensures !Apply(Run(s, es), Decide).suspending
    ensures Apply(Run(s, es), Decide).suspendCount == Run(s, es).suspendCount - 1
  {
    OneFailureIsEnough(s, es);
    InvRun(s, es);
  }

  /** An instance: the first transfer fails, and the auto suspend that follows returns busy. */
  lemma FailedThenBusy()
    ensures var es := [IncTx(0), Submit(0, false), SuspendCall(true), Decide];
            Legal(INITIAL, es) && Run(INITIAL, es) == State(map[0 := Failed], [], 1, false, 0, Idle, false)
  {
    var a := State(map[0 := Claimed], [], 1, false, 0, Idle, false);
    var b := a.(place := map[0 := Failed]);
    RunOneMore(INITIAL, [], IncTx(0));
    RunOneMore(INITIAL, [IncTx(0)], Submit(0, false));
    RunOneMore(INITIAL, [IncTx(0), Submit(0, false)], SuspendCall(true));
    RunOneMore(INITIAL, [IncTx(0), Submit(0, false), SuspendCall(true)], Decide);
    assert [] + [IncTx(0)] == [IncTx(0)];
    assert [IncTx(0)] + [Submit(0, false)] == [IncTx(0), Submit(0, false)];
    assert [IncTx(0), Submit(0, false)] + [SuspendCall(true)] == [IncTx(0), Submit(0, false), SuspendCall(true)];
    assert [IncTx(0), Submit(0, false), SuspendCall(true)] + [Decide]
           == [IncTx(0), Submit(0, false), SuspendCall(true), Decide];
  }

  // ------------------------------------------------------------ the lock, and what suspend and resume wait for

  /** While resume holds the lock, nobody counts or decides anything: the counter moves by what is played alone. */
  lemma {:induction false} LockExcludes(s: State, es: seq<Event>)
    requires !LockFree(s) && Legal(s, es) && forall e :: e in es ==> !e.Unlock?
    ensures forall e :: e in es ==> !e.IncTx? && !e.Complete? && !e.Decide? && !e.SuspendCall? && !e.ResumeCall?
    ensures !LockFree(Run(s, es)) && Run(s, es).inFlight == s.inFlight + Played(es)
    decreases |es|
  {
    if es != [] {
      assert es[0] in es && forall e :: e in es[1..] ==> e in es;
      LockExcludes(Apply(s, es[0]), es[1..]);
      assert forall e :: e in es ==> e == es[0] || e in es[1..];
    }
  }

  /** Once a suspend has drained the bus, what is on it before resume was submitted by a sender past inc_tx since. */
  lemma {:induction false} DrainedRun(s: State, es: seq<Event>, u: Urb)
    requires Inv(s) && s.suspending && LockFree(s) && Legal(s, es) && BeforeResume(es)
    requires !At(s, u, Outstanding) && At(Run(s, es), u, Outstanding)
    ensures At(s, u, Claimed) && Submit(u, true) in es
    decreases |es|
  {
    if es != [] {
      var e, t := es[0], Apply(s, es[0]);
      assert e in es && forall x :: x in es[1..] ==> x in es;
      InvStep(s, e);
      SuspendedStep(s, e);
      if At(t, u, Outstanding) {
        assert e == Submit(u, true);
      } else {
        DrainedRun(t, es[1..], u);
      }
    }
  }

  lemma DrainedSuspend(s: State, es: seq<Event>, u: Urb)
    requires Inv(s) && Enabled(s, Drained) && Legal(Apply(s, Drained), es) && BeforeResume(es)
    requires At(Run(Apply(s, Drained), es), u, Outstanding)
    ensures Submit(u, true) in es
  {
    InvStep(s, Drained);
    DrainedRun(Apply(s, Drained), es, u);
  }

  /** A failed resume that has not dropped this transfer yet, or has. */
  predicate GivingUp(s: State, u: Urb) {
    (s.pm.Failing? && (At(s, u, Deferred) || At(s, u, Dropped))) || (s.pm.Clearing? && At(s, u, Dropped))
  }

  lemma GivingUpStep(s: State, e: Event, u: Urb)
    requires Inv(s) && GivingUp(s, u) && Enabled(s, e) && !e.FailClear?
    ensures GivingUp(Apply(s, e), u) && !e.Lock? && !e.PlayOne? && !e.CountOne? && !e.Unlock?
  {
    assert u in s.deferred <==> At(s, u, Deferred);
  }

  /**
   A resume whose receive transfers cannot be submitted again plays nothing: until it clears the flag it never takes
   the lock, and by then everything that was queued when it failed has been dropped.
   */
  lemma {:induction false} FailedResumeRun(s: State, es: seq<Event>, u: Urb)
    requires Inv(s) && GivingUp(s, u) && Legal(s, es) && forall e :: e in es ==> !e.FailClear?
    ensures GivingUp(Run(s, es), u) && forall e :: e in es ==> !e.Lock? && !e.PlayOne? && !e.CountOne? && !e.Unlock?
    decreases |es|
  {
    if es != [] {
      var e := es[0];
      assert e in es && forall x :: x in es[1..] ==> x in es;
      InvStep(s, e);
      GivingUpStep(s, e, u);
      FailedResumeRun(Apply(s, e), es[1..], u);
      assert forall x :: x in es ==> x == e || x in es[1..];
    }
  }

  lemma FailedResume(s: State, es: seq<Event>, u: Urb)
    requires Inv(s) && Enabled(s, Rearm(false)) && u in s.deferred
    requires Legal(Apply(s, Rearm(false)), es) && forall e :: e in es ==> !e.FailClear?
    ensures forall e :: e in es ==> !e.Lock? && !e.PlayOne?
    ensures var t := Run(Apply(s, Rearm(false)), es);
            Enabled(t, FailClear) ==> At(Apply(t, FailClear), u, Dropped) && !Apply(t, FailClear).suspending
  {
    assert u in s.deferred <==> At(s, u, Deferred);
    InvStep(s, Rearm(false));
    FailedResumeRun(Apply(s, Rearm(false)), es, u);
  }
}
