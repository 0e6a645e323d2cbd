/**
 Transmission against suspend and resume in the Bluetooth USB driver.

 Senders, completion handlers and the power-management thread interleave
 freely; only what the driver does under `txlock` is atomic. The state
 machine below has one event per atomic piece of code, so a run of it is one
 interleaving. It tracks command and ACL transfers; SCO transfers bypass the
 accounting in the driver and are not part of it.
 */
module TxProtocol {

  type Urb = nat

  /** How far a transfer has come. */
  datatype Place =
    | Claimed      // inc_tx counted it; it is about to be submitted
    | Refused      // inc_tx found BTUSB_SUSPENDING; it is about to be queued
    | Deferred     // on the deferred anchor
    | Outstanding  // submitted, on the tx anchor
    | Finishing    // given back by the USB core; its completion handler waits for the lock
    | Done         // the handler has decremented the counter
    | Failed       // submission failed
    | Dropped      // scuttled from the deferred anchor

  /** Where the power-management thread is. Suspend and resume calls are serialised by the USB core. */
  datatype Pm =
    | Idle
    | Deciding(auto: bool)      // btusb_suspend, before the lock
    | Draining                  // btusb_suspend, after the flag is set
    | Waking                    // btusb_resume, before the lock
    | Playing(uncounted: bool)  // play_deferred, lock held; a transfer may be submitted and not yet counted
    | Ending                    // play_deferred, lock held, the queue was found empty
    | Scuttled                  // lock held, leftovers dropped
    | Failing                   // btusb_resume, error path
    | Clearing                  // error path, waiting for the lock

  datatype State = State(
    place: map<Urb, Place>,
    deferred: seq<Urb>,
    inFlight: int,
    suspending: bool,
    suspendCount: int,
    pm: Pm,
    /** The current suspension was decided by an auto suspend, and resume has not started to play. */
    autoSuspended: bool)

  const INITIAL := State(map[], [], 0, false, 0, Idle, false)

  predicate LockFree(s: State) {
    !s.pm.Playing? && !s.pm.Ending? && !s.pm.Scuttled?
  }

  predicate At(s: State, u: Urb, p: Place) {
    u in s.place && s.place[u] == p
  }

  datatype Event =
    | IncTx(u: Urb)                 // btusb_send_frame: inc_tx for a new transfer
    | Submit(u: Urb, ok: bool)      // btusb_send_frame: usb_submit_urb
    | Queue(u: Urb)                 // btusb_send_frame: usb_anchor_urb on deferred
    | GiveBack(u: Urb)              // the USB core ends the transfer, for whatever reason
    | Complete(u: Urb)              // btusb_tx_complete: the locked decrement
    | SuspendCall(auto: bool)       // btusb_suspend: suspend_count++
    | Decide                        // btusb_suspend: the locked test
    | Drained                       // btusb_suspend: tx anchor killed empty
    | ResumeCall                    // btusb_resume: --suspend_count
    | Rearm(ok: bool)               // btusb_resume: receive transfers resubmitted
    | Lock                          // btusb_resume: takes the lock
    | PlayOne(ok: bool)             // play_deferred: next transfer submitted
    | CountOne                      // play_deferred: tx_in_flight++
    | PlayEnd                       // play_deferred: the queue is found empty
    | Scuttle                       // play_deferred: usb_scuttle_anchored_urbs
    | Unlock                        // btusb_resume: clears the flag, releases the lock
    | FailScuttle                   // btusb_resume, error path
    | FailClear                     // btusb_resume, error path: the locked clear
    | CloseScuttle                  // btusb_close

  predicate Enabled(s: State, e: Event) {
    match e
    case IncTx(u) => u !in s.place && LockFree(s)
    case Submit(u, _) => At(s, u, Claimed)
    case Queue(u) => At(s, u, Refused)
    case GiveBack(u) => At(s, u, Outstanding)
    case Complete(u) => At(s, u, Finishing) && LockFree(s)
    case SuspendCall(_) => s.pm.Idle?
    case Decide => s.pm.Deciding?
    case Drained => s.pm.Draining? && forall u :: u in s.place ==> s.place[u] != Outstanding
    case ResumeCall => s.pm.Idle? && s.suspendCount > 0
    case Rearm(_) => s.pm.Waking?
    case Lock => s.pm.Waking?
    case PlayOne(_) => s.pm == Playing(false) && s.deferred != [] && s.deferred[0] in s.place
    case CountOne => s.pm == Playing(true)
    case PlayEnd => s.pm == Playing(false) && s.deferred == []
    case Scuttle => s.pm.Ending?
    case Unlock => s.pm.Scuttled?
    case FailScuttle => s.pm.Failing?
    case FailClear => s.pm.Clearing?
    case CloseScuttle => true
  }

  /** usb_scuttle_anchored_urbs on the deferred anchor. */
  function Emptied(s: State): State {
    s.(place := map u | u in s.place :: if u in s.deferred then Dropped else s.place[u], deferred := [])
  }

  function Apply(s: State, e: Event): State
    requires Enabled(s, e)
  {
    match e
    case IncTx(u) =>
      if s.suspending then s.(place := s.place[u := Refused])
      else s.(place := s.place[u := Claimed], inFlight := s.inFlight + 1)
    case Submit(u, ok) => s.(place := s.place[u := if ok then Outstanding else Failed])
    case Queue(u) => s.(place := s.place[u := Deferred], deferred := s.deferred + [u])
    case GiveBack(u) => s.(place := s.place[u := Finishing])
    case Complete(u) => s.(place := s.place[u := Done], inFlight := s.inFlight - 1)
    case SuspendCall(auto) =>
      s.(suspendCount := s.suspendCount + 1, pm := if s.suspendCount == 0 then Deciding(auto) else Idle)
    case Decide =>
      if s.pm.auto && s.inFlight != 0 then s.(suspendCount := s.suspendCount - 1, pm := Idle)
      else s.(suspending := true, pm := Draining, autoSuspended := s.pm.auto)
    case Drained => s.(pm := Idle)
    case ResumeCall =>
      s.(suspendCount := s.suspendCount - 1, pm := if s.suspendCount == 1 then Waking else Idle)
    case Rearm(ok) => if ok then s else s.(pm := Failing)
    case Lock => s.(pm := Playing(false), autoSuspended := false)
    case PlayOne(ok) =>
      s.(place := s.place[s.deferred[0] := if ok then Outstanding else Failed],
         deferred := s.deferred[1..], pm := Playing(true))
    case CountOne => s.(inFlight := s.inFlight + 1, pm := Playing(false))
    case PlayEnd => s.(pm := Ending)
    case Scuttle => Emptied(s).(pm := Scuttled)
    case Unlock => s.(suspending := false, pm := Idle)
    case FailScuttle => Emptied(s).(pm := Clearing)
    case FailClear => s.(suspending := false, pm := Idle, autoSuspended := false)
    case CloseScuttle => Emptied(s)
  }

  ghost predicate Legal(s: State, es: seq<Event>)
    decreases |es|
  {
    es == [] || (Enabled(s, es[0]) && Legal(Apply(s, es[0]), es[1..]))
  }

  ghost function Run(s: State, es: seq<Event>): State
    requires Legal(s, es)
    decreases |es|
  {
    if es == [] then s else Run(Apply(s, es[0]), es[1..])
  }

  // ------------------------------------------------------------ the invariant

  /** A transfer the counter stands for. A failed submission is never taken back. */
  predicate Counts(p: Place) {
    p.Claimed? || p.Outstanding? || p.Finishing? || p.Failed?
  }

  ghost function Counted(s: State): set<Urb> {
    set u | u in s.place && Counts(s.place[u])
  }

  /** The counter is exact, up to the one transfer play_deferred submits before counting it. */
  ghost predicate CounterExact(s: State) {
    s.inFlight == |Counted(s)| - if s.pm == Playing(true) then 1 else 0
  }

  /** The deferred anchor holds exactly the deferred transfers, each once. */
  ghost predicate QueueExact(s: State) {
    && (forall u :: u in s.deferred <==> At(s, u, Deferred))
    && (forall i, j :: 0 <= i < j < |s.deferred| ==> s.deferred[i] != s.deferred[j])
  }

  /** The flag follows the suspend count. */
  ghost predicate FlagExact(s: State) {
    match s.pm
    case Idle => s.suspendCount >= 0 && (s.suspending <==> s.suspendCount > 0)
    case Deciding(_) => !s.suspending && s.suspendCount == 1
    case Draining => s.suspending && s.suspendCount == 1
    case _ => s.suspending && s.suspendCount == 0
  }

  /** An auto suspend found nothing in flight, and nothing has got in flight since. */
  ghost predicate QuietWhileAutoSuspended(s: State) {
    s.autoSuspended ==> s.suspending && LockFree(s) && Counted(s) == {}
  }

  ghost predicate Inv(s: State) {
    CounterExact(s) && QueueExact(s) && FlagExact(s) && QuietWhileAutoSuspended(s)
  }

  lemma CountedAfter(s: State, t: State, u: Urb, p: Place)
    requires t.place == s.place[u := p]
    ensures Counted(t) == if Counts(p) then Counted(s) + {u} else Counted(s) - {u}
  {
  }

  /** A move that neither enters nor leaves the deferred anchor keeps it exact. */
  lemma QueueKept(s: State, t: State, u: Urb, p: Place)
    requires QueueExact(s) && t.place == s.place[u := p] && t.deferred == s.deferred
    requires u !in s.deferred && p != Deferred
    ensures QueueExact(t)
  {
  }

  lemma IncTxStep(s: State, e: Event)
    requires Inv(s) && Enabled(s, e) && e.IncTx?
    ensures Inv(Apply(s, e))
  {
    var t := Apply(s, e);
    assert e.u in s.deferred <==> At(s, e.u, Deferred);
    CountedAfter(s, t, e.u, t.place[e.u]);
    assert e.u !in Counted(s);
    assert s.suspending ==> Counted(t) == Counted(s);
    QueueKept(s, t, e.u, t.place[e.u]);
  }

  lemma CompleteStep(s: State, e: Event)
    requires Inv(s) && Enabled(s, e) && e.Complete?
    ensures Inv(Apply(s, e))
  {
    var t := Apply(s, e);
    assert e.u in s.deferred <==> At(s, e.u, Deferred);
    CountedAfter(s, t, e.u, t.place[e.u]);
    assert e.u in Counted(s);
    QueueKept(s, t, e.u, t.place[e.u]);
  }

  /** The events of senders and completion handlers. */
  lemma SenderStep(s: State, e: Event)
    requires Inv(s) && Enabled(s, e) && (e.IncTx? || e.Submit? || e.GiveBack? || e.Complete?)
    ensures Inv(Apply(s, e))
  {
    if e.IncTx? {
      IncTxStep(s, e);
    } else if e.Complete? {
      CompleteStep(s, e);
    } else {
      var t := Apply(s, e);
      assert e.u in s.deferred <==> At(s, e.u, Deferred);
      CountedAfter(s, t, e.u, t.place[e.u]);
      assert e.u in Counted(s);
      assert Counted(t) == Counted(s);
      QueueKept(s, t, e.u, t.place[e.u]);
    }
  }

  lemma QueueStep(s: State, u: Urb)
    requires Inv(s) && Enabled(s, Queue(u))
    ensures Inv(Apply(s, Queue(u)))
  {
    var t := Apply(s, Queue(u));
    assert u in s.deferred <==> At(s, u, Deferred);
    CountedAfter(s, t, u, Deferred);
    assert Counted(t) == Counted(s);
    forall v
      ensures v in t.deferred <==> At(t, v, Deferred)
    {
      assert v in s.deferred <==> At(s, v, Deferred);
    }
  }

  lemma PlayStep(s: State, ok: bool)
    requires Inv(s) && Enabled(s, PlayOne(ok))
    ensures Inv(Apply(s, PlayOne(ok)))
  {
    var u, t := s.deferred[0], Apply(s, PlayOne(ok));
    assert At(s, u, Deferred);
    CountedAfter(s, t, u, t.place[u]);
    assert u !in Counted(s);
    forall v
      ensures v in t.deferred <==> At(t, v, Deferred)
    {
      assert v in s.deferred <==> At(s, v, Deferred);
      assert s.deferred == [u] + t.deferred;
      if v in t.deferred {
        assert v != u;
      }
    }
  }

  lemma EmptiedKept(s: State)
    requires QueueExact(s)
    ensures QueueExact(Emptied(s)) && Counted(Emptied(s)) == Counted(s)
  {
  }

  lemma SamePlaces(s: State, t: State)
    requires QueueExact(s) && t.place == s.place && t.deferred == s.deferred
    ensures QueueExact(t) && Counted(t) == Counted(s)
  {
  }

  /** Every event of every thread keeps the invariant. */
  lemma InvStep(s: State, e: Event)
    requires Inv(s) && Enabled(s, e)
    ensures Inv(Apply(s, e))
  {
    if e.Queue? {
      QueueStep(s, e.u);
    } else if e.PlayOne? {
      PlayStep(s, e.ok);
    } else if e.Scuttle? || e.FailScuttle? || e.CloseScuttle? {
      EmptiedKept(s);
    } else if e.IncTx? || e.Submit? || e.GiveBack? || e.Complete? {
      SenderStep(s, e);
    } else {
      SamePlaces(s, Apply(s, e));
    }
  }

  /** Hence every interleaving does. */
  lemma {:induction false} InvRun(s: State, es: seq<Event>)
    requires Inv(s) && Legal(s, es)
    ensures Inv(Run(s, es))
    decreases |es|
  {
    if es != [] {
      InvStep(s, es[0]);
      InvRun(Apply(s, es[0]), es[1..]);
    }
  }

  // ------------------------------------------------------------ what follows

  lemma InvInitially()
    ensures Inv(INITIAL)
  {
  }

  ghost predicate Reachable(s: State) {
    exists es :: Legal(INITIAL, es) && Run(INITIAL, es) == s
  }

  lemma ReachableInv(s: State)
    requires Reachable(s)
    ensures Inv(s)
  {
    var es :| Legal(INITIAL, es) && Run(INITIAL, es) == s;
    InvInitially();
    InvRun(INITIAL, es);
  }

  /** A transfer that is on the bus, is about to be submitted or waits for its completion. */
  predicate Live(p: Place) {
    p.Claimed? || p.Outstanding? || p.Finishing?
  }

  ghost predicate NoneLive(s: State) {
    forall u :: u in s.place ==> !Live(s.place[u])
  }

  /** An event that submits a transfer or ends one. */
  predicate Traffic(e: Event) {
    e.Submit? || e.PlayOne? || e.GiveBack? || e.Complete?
  }

  /** Up to the point where resume takes the lock, or clears the flag because it failed. */
  ghost predicate BeforeResume(es: seq<Event>) {
    forall e :: e in es ==> !e.Lock? && !e.FailClear?
  }

  /** Whatever the threads do before resume, none of it is an event of this kind. */
  ghost predicate Never(s: State, kind: Event -> bool) {
    forall es, e :: Legal(s, es) && BeforeResume(es) && e in es ==> !kind(e)
  }

  /** The flag keeps new transfers away from the counter and, without the lock, nothing is played. */
  lemma SuspendedStep(s: State, e: Event)
    requires Inv(s) && s.suspending && LockFree(s) && Enabled(s, e) && !e.Lock? && !e.FailClear?
    ensures var t := Apply(s, e);
            && t.suspending && LockFree(t) && t.autoSuspended == s.autoSuspended
            && (forall u :: At(t, u, Claimed) ==> At(s, u, Claimed))
            && (NoneLive(s) ==> NoneLive(t) && !Traffic(e))
  {
  }

  lemma {:induction false} SuspendedRun(s: State, es: seq<Event>)
    requires Inv(s) && s.suspending && LockFree(s) && Legal(s, es) && BeforeResume(es)
    ensures var t := Run(s, es); t.suspending && LockFree(t) && t.autoSuspended == s.autoSuspended
    ensures NoneLive(s) ==> NoneLive(Run(s, es)) && forall e :: e in es ==> !Traffic(e)
    ensures (forall u :: !At(s, u, Claimed)) ==> forall e :: e in es ==> !e.Submit? && !e.PlayOne?
    decreases |es|
  {
    if es != [] {
      var e := es[0];
      assert e in es;
      InvStep(s, e);
      SuspendedStep(s, e);
      SuspendedRun(Apply(s, e), es[1..]);
      assert forall x :: x in es ==> x == e || x in es[1..];
    }
  }

  /**
   Auto suspend is safe: from the moment it sets the flag until resume takes the lock (or gives up),
   whatever the other threads do, no command or ACL transfer is outstanding, about to be submitted or
   being completed, the counter is zero, and no event submits one.
   */
  lemma AutoSuspendSafe(s: State, es: seq<Event>)
    requires Reachable(s) && s.autoSuspended && Legal(s, es) && BeforeResume(es)
    ensures var t := Run(s, es);
            && t.autoSuspended && t.suspending && t.inFlight == 0
            && forall u :: u in t.place ==> t.place[u] in {Refused, Deferred, Done, Dropped}
    ensures forall e :: e in es ==> !Traffic(e)
  {
    ReachableInv(s);
    NoneCounted(s);
    SuspendedRun(s, es);
    InvRun(s, es);
    NoneCounted(Run(s, es));
  }

  lemma NoneCounted(s: State)
    requires Counted(s) == {}
    ensures NoneLive(s) && forall u :: u in s.place ==> s.place[u] in {Refused, Deferred, Done, Dropped}
  {
    assert forall u :: u in s.place ==> u !in Counted(s);
  }

  // ------------------------------------------------------------ when a suspend is quiet

  ghost function Failures(s: State): set<Urb> {
    set u | u in s.place && s.place[u].Failed?
  }

  /** What the counter says about live transfers: none exactly when it stands for failed submissions alone. */
  lemma LiveByCounter(s: State)
    requires Inv(s) && s.pm != Playing(true)
    ensures NoneLive(s) <==> s.inFlight == |Failures(s)|
  {
    assert Failures(s) <= Counted(s);
    if s.inFlight == |Failures(s)| {
      assert |Counted(s) - Failures(s)| == 0;
      assert forall u :: u in s.place && Live(s.place[u]) ==> u in Counted(s) - Failures(s);
    }
    assert NoneLive(s) ==> Counted(s) == Failures(s);
  }

  /** A live transfer can move, suspended or not. */
  lemma LiveMoves(s: State, u: Urb) returns (e: Event)
    requires LockFree(s) && u in s.place && Live(s.place[u])
    ensures Enabled(s, e) && Traffic(e) && Legal(s, [e]) && BeforeResume([e]) && e in [e]
    ensures s.place[u].Claimed? ==> e.Submit?
  {
    e := match s.place[u]
      case Claimed => Submit(u, true)
      case Outstanding => GiveBack(u)
      case _ => Complete(u);
  }

  /**
   A suspend, automatic or not, is quiet exactly when the counter it finds stands for failed
   submissions alone. An auto suspend demands a zero counter; a system suspend demands nothing.
   */
  lemma SuspendQuietIff(s: State)
    requires Inv(s) && s.pm.Deciding? && Apply(s, Decide).suspending
    ensures Never(Apply(s, Decide), Traffic) <==> s.inFlight == |Failures(s)|
    ensures s.pm.auto ==> Never(Apply(s, Decide), Traffic)
  {
    var t := Apply(s, Decide);
    InvStep(s, Decide);
    LiveByCounter(s);
    if NoneLive(s) {
      forall es, e | Legal(t, es) && BeforeResume(es) && e in es ensures !Traffic(e) {
        SuspendedRun(t, es);
      }
    } else {
      var u :| u in t.place && Live(t.place[u]);
      var e := LiveMoves(t, u);
    }
    if s.pm.auto {
      NoneCounted(s);
    }
  }

  /** A transfer is submitted while suspended, in some interleaving, exactly when a sender is past inc_tx. */
  lemma SubmitsWhileSuspendedIff(s: State)
    requires Inv(s) && s.suspending && LockFree(s)
    ensures !Never(s, (e: Event) => e.Submit? || e.PlayOne?) <==> exists u :: At(s, u, Claimed)
  {
    var kind := (e: Event) => e.Submit? || e.PlayOne?;
    if u :| At(s, u, Claimed) {
      var e := LiveMoves(s, u);
      assert kind(e);
    } else {
      forall es, e | Legal(s, es) && BeforeResume(es) && e in es ensures !kind(e) {
        SuspendedRun(s, es);
      }
    }
  }

  // ------------------------------------------------------------ who is left in the queue

  /** No suspend is decided. */
  ghost predicate NoDecision(es: seq<Event>) {
    forall e :: e in es ==> !e.Decide?
  }

  /** In some interleaving a transfer is left in the queue while the device is awake, with nobody to play it. */
  ghost predicate CanStrand(s: State) {
    exists es :: Legal(s, es) && NoDecision(es) && Run(s, es).deferred != [] && !Run(s, es).suspending
  }

  /** Awake, no sender is refused; so the queue gets only what refused senders still hold. */
  lemma AwakeStep(s: State, e: Event)
    requires Inv(s) && !s.suspending && Enabled(s, e) && !e.Decide?
    ensures !Apply(s, e).suspending
    ensures forall u :: At(Apply(s, e), u, Refused) ==> At(s, u, Refused)
    ensures s.deferred == [] && (forall u :: !At(s, u, Refused)) ==> Apply(s, e).deferred == []
  {
  }

  lemma {:induction false} AwakeRun(s: State, es: seq<Event>)
    requires Inv(s) && !s.suspending && Legal(s, es) && NoDecision(es)
    ensures !Run(s, es).suspending
    ensures s.deferred == [] && (forall u :: !At(s, u, Refused)) ==> Run(s, es).deferred == []
    decreases |es|
  {
    if es != [] {
      var e := es[0];
      assert e in es;
      InvStep(s, e);
      AwakeStep(s, e);
      AwakeRun(Apply(s, e), es[1..]);
    }
  }

  /**
   When resume clears the flag, on success or failure, a transfer can be stranded exactly if one is
   in the queue or a refused sender has not queued its transfer yet.
   */
  lemma StrandsIff(s: State, e: Event)
    requires Inv(s) && Enabled(s, e) && (e.Unlock? || e.FailClear?)
    ensures CanStrand(Apply(s, e)) <==> s.deferred != [] || exists u :: At(s, u, Refused)
  {
    var t := Apply(s, e);
    InvStep(s, e);
    if s.deferred != [] {
      assert Legal(t, []) && NoDecision([]) && Run(t, []) == t;
    } else if u :| At(s, u, Refused) {
      var es := [Queue(u)];
      assert Enabled(t, es[0]) && es[1..] == [];
      assert Run(t, es) == Run(Apply(t, es[0]), []) == Apply(t, es[0]);
      assert Legal(t, es) && NoDecision(es);
    } else {
      forall es | Legal(t, es) && NoDecision(es) ensures Run(t, es).deferred == [] {
        assert forall u :: At(t, u, Refused) ==> At(s, u, Refused);
        AwakeRun(t, es);
      }
    }
  }

  /** An auto suspend succeeds exactly when the counter is zero, which is when no transfer counts. */
  lemma AutoSuspendIffQuiet(s: State)
    requires Inv(s) && s.pm == Deciding(true)
    ensures Apply(s, Decide).suspending <==> Counted(s) == {}
  {
  }

  /** A failed submission is never uncounted, so no auto suspend ever succeeds after one. */
  lemma {:induction false} FailureBlocksAutoSuspend(s: State, es: seq<Event>, u: Urb)
    requires Inv(s) && At(s, u, Failed) && Legal(s, es)
    ensures At(Run(s, es), u, Failed) && !Run(s, es).autoSuspended
    decreases |es|
  {
    assert u in Counted(s);
    if es != [] {
      InvStep(s, es[0]);
      assert u in s.deferred <==> At(s, u, Deferred);
      FailureBlocksAutoSuspend(Apply(s, es[0]), es[1..], u);
    }
  }

  // ------------------------------------------------------------ no transfer twice

  function Rank(p: Place): nat {
    match p
    case Claimed => 0
    case Refused => 0
    case Deferred => 1
    case Outstanding => 2
    case Finishing => 3
    case Done => 4
    case Failed => 4
    case Dropped => 4
  }

  lemma AdvanceStep(s: State, e: Event, u: Urb)
    requires QueueExact(s) && Enabled(s, e) && u in s.place
    ensures var t := Apply(s, e);
            u in t.place && (t.place[u] == s.place[u] || Rank(t.place[u]) > Rank(s.place[u]))
  {
    assert u in s.deferred <==> At(s, u, Deferred);
    if e.PlayOne? {
      assert At(s, s.deferred[0], Deferred);
    }
  }

  /** Transfers only advance, so each is submitted at most once and ends at most once. */
  lemma {:induction false} TransfersAdvance(s: State, es: seq<Event>, u: Urb)
    requires Inv(s) && Legal(s, es) && u in s.place
    ensures var t := Run(s, es);
            u in t.place && (t.place[u] == s.place[u] || Rank(t.place[u]) > Rank(s.place[u]))
    decreases |es|
  {
    if es != [] {
      InvStep(s, es[0]);
      AdvanceStep(s, es[0], u);
      TransfersAdvance(Apply(s, es[0]), es[1..], u);
    }
  }

  // ------------------------------------------------------------ first in, first out

  /** What a sender queues in a step. */
  function QueuedBy(e: Event): seq<Urb> {
    if e.Queue? then [e.u] else []
  }

  /** What play_deferred takes from the queue in a step. */
  function PlayedBy(s: State, e: Event): seq<Urb>
    requires Enabled(s, e)
  {
    if e.PlayOne? then [s.deferred[0]] else []
  }

  function Queued(es: seq<Event>): seq<Urb>
    decreases |es|
  {
    if es == [] then [] else QueuedBy(es[0]) + Queued(es[1..])
  }

  ghost function Played(s: State, es: seq<Event>): seq<Urb>
    requires Legal(s, es)
    decreases |es|
  {
    if es == [] then [] else PlayedBy(s, es[0]) + Played(Apply(s, es[0]), es[1..])
  }

  predicate Scuttles(e: Event) {
    e.Scuttle? || e.FailScuttle? || e.CloseScuttle?
  }

  lemma FifoStep(s: State, e: Event)
    requires Enabled(s, e) && !Scuttles(e)
    ensures s.deferred + QueuedBy(e) == PlayedBy(s, e) + Apply(s, e).deferred
  {
  }

  lemma Chained(a: seq<Urb>, q: seq<Urb>, q': seq<Urb>, p: seq<Urb>, b: seq<Urb>, p': seq<Urb>, r: seq<Urb>)
    requires a + q == p + b && b + q' == p' + r
    ensures a + (q + q') == (p + p') + r
  {
    assert a + (q + q') == (a + q) + q';
    assert (p + b) + q' == p + (b + q');
    assert p + (p' + r) == (p + p') + r;
  }

  /**
   In every interleaving, also with senders queueing while the queue is played, transfers are played
   in the order they were queued and none gets lost, until the rest of the queue is scuttled.
   */
  lemma {:induction false} QueueIsFifo(s: State, es: seq<Event>)
    requires Legal(s, es) && forall e :: e in es ==> !Scuttles(e)
    ensures s.deferred + Queued(es) == Played(s, es) + Run(s, es).deferred
    decreases |es|
  {
    if es == [] {
      assert s.deferred + Queued(es) == s.deferred;
    } else {
      var e, t, rest := es[0], Apply(s, es[0]), es[1..];
      assert e in es && forall x :: x in rest ==> x in es;
      FifoStep(s, e);
      QueueIsFifo(t, rest);
      Chained(s.deferred, QueuedBy(e), Queued(rest), PlayedBy(s, e), t.deferred, Played(t, rest),
              Run(t, rest).deferred);
    }
  }

  // ------------------------------------------------------------ what does not follow

  lemma {:induction false} RunOneMore(s: State, es: seq<Event>, e: Event)
    requires Legal(s, es) && Enabled(Run(s, es), e)
    ensures Legal(s, es + [e]) && Run(s, es + [e]) == Apply(Run(s, es), e)
    decreases |es|
  {
    if es == [] {
      assert [e][1..] == [];
    } else {
      assert (es + [e])[1..] == es[1..] + [e];
      RunOneMore(Apply(s, es[0]), es[1..], e);
    }
  }

  lemma ReachStep(s: State, e: Event)
    requires Reachable(s) && Enabled(s, e)
    ensures Reachable(Apply(s, e))
  {
    var es :| Legal(INITIAL, es) && Run(INITIAL, es) == s;
    RunOneMore(INITIAL, es, e);
  }

  lemma ReachInitial()
    ensures Reachable(INITIAL)
  {
    assert Legal(INITIAL, []) && Run(INITIAL, []) == INITIAL;
  }

  lemma ClaimedWhileSuspended()
    ensures Reachable(State(map[0 := Claimed], [], 1, true, 1, Idle, false))
  {
    ReachInitial();
    ReachStep(INITIAL, IncTx(0));
    var s := State(map[0 := Claimed], [], 1, false, 0, Idle, false);
    ReachStep(s, SuspendCall(false));
    ReachStep(s.(suspendCount := 1, pm := Deciding(false)), Decide);
    ReachStep(s.(suspendCount := 1, suspending := true, pm := Draining), Drained);
  }

  /** A system suspend does not wait for senders past inc_tx: one can submit while suspended. */
  lemma SystemSuspendIsNotQuiet()
    ensures Reachable(State(map[0 := Outstanding], [], 1, true, 1, Idle, false))
  {
    ClaimedWhileSuspended();
    ReachStep(State(map[0 := Claimed], [], 1, true, 1, Idle, false), Submit(0, true));
    assert map[0 := Claimed][0 := Outstanding] == map[0 := Outstanding];
  }

  const REFUSED_ONE := State(map[0 := Refused], [], 0, true, 1, Idle, true)

  lemma RefusedOneReachable()
    ensures Reachable(REFUSED_ONE)
  {
    ReachInitial();
    ReachStep(INITIAL, SuspendCall(true));
    ReachStep(INITIAL.(suspendCount := 1, pm := Deciding(true)), Decide);
    var s := INITIAL.(suspendCount := 1, suspending := true, autoSuspended := true);
    ReachStep(s.(pm := Draining), Drained);
    ReachStep(s, IncTx(0));
    assert map[][0 := Refused] == map[0 := Refused];
  }

  lemma ResumedReachable()
    ensures Reachable(REFUSED_ONE.(suspendCount := 0, autoSuspended := false, pm := Ending))
  {
    RefusedOneReachable();
    ReachStep(REFUSED_ONE, ResumeCall);
    var r := REFUSED_ONE.(suspendCount := 0);
    ReachStep(r.(pm := Waking), Lock);
    ReachStep(r.(autoSuspended := false, pm := Playing(false)), PlayEnd);
  }

  /** A sender refused just before resume plays the queue is left behind: queued, awake, and nobody to play it. */
  lemma RefusedSenderCanBeStranded()
    ensures Reachable(State(map[0 := Deferred], [0], 0, false, 0, Idle, false))
  {
    ResumedReachable();
    var p := REFUSED_ONE.(suspendCount := 0, autoSuspended := false);
    ReachStep(p.(pm := Ending), Scuttle);
    assert Emptied(p.(pm := Ending)).place == map[0 := Refused];
    ReachStep(p.(pm := Scuttled), Unlock);
    ReachStep(p.(suspending := false), Queue(0));
    assert map[0 := Refused][0 := Deferred] == map[0 := Deferred];
  }
}
