/**
 The driver routines behind TxProtocol, each run without interruption: every
 one is a legal run of the protocol, so whatever is proved of all runs holds
 of the driver. The transfers' places and the point the power-management
 thread has reached are implicit in the driver and kept here as ghost state.
 */
module TxDriver {
  import opened TxProtocol

  class Btusb {
    var txInFlight: int
    var suspending: bool
    var suspendCount: int
    var deferred: seq<Urb>
    ghost var place: map<Urb, Place>
    ghost var pm: Pm
    ghost var autoSuspended: bool

    ghost function View(): State
      reads this
    {
      State(place, deferred, txInFlight, suspending, suspendCount, pm, autoSuspended)
    }

    constructor ()
      ensures View() == INITIAL
    {
      txInFlight, suspending, suspendCount, deferred := 0, false, 0, [];
      place, pm, autoSuspended := map[], Idle, false;
    }

    /** The ghost part of one event. */
    ghost method Note(e: Event, s: State)
      requires Enabled(s, e)
      modifies `place, `pm, `autoSuspended
      ensures place == Apply(s, e).place && pm == Apply(s, e).pm && autoSuspended == Apply(s, e).autoSuspended
    {
      var t := Apply(s, e);
      place, pm, autoSuspended := t.place, t.pm, t.autoSuspended;
    }

    /** inc_tx: true when the sender has to wait. */
    method IncTx(u: Urb) returns (rv: bool)
      requires Enabled(View(), TxProtocol.IncTx(u))
      modifies this
      ensures View() == Apply(old(View()), TxProtocol.IncTx(u)) && rv == old(suspending)
      ensures txInFlight == old(txInFlight) + (if rv then 0 else 1) && suspending == old(suspending)
    {
      ghost var s := View();
      rv := suspending;
      if !rv {
        txInFlight := txInFlight + 1;
      }
      Note(TxProtocol.IncTx(u), s);
    }

    /** btusb_send_frame for a command or ACL packet; `ok` is the outcome of usb_submit_urb. */
    method SendFrame(u: Urb, ok: bool)
      requires Enabled(View(), TxProtocol.IncTx(u))
      modifies this
      ensures var es := [TxProtocol.IncTx(u), if old(suspending) then Queue(u) else Submit(u, ok)];
              Legal(old(View()), es) && View() == Run(old(View()), es)
      ensures txInFlight == old(txInFlight) + if old(suspending) then 0 else 1
      ensures deferred == if old(suspending) then old(deferred) + [u] else old(deferred)
    {
      ghost var s := View();
      var rv := IncTx(u);
      ghost var t := View();
      if rv {
        deferred := deferred + [u];
        Note(Queue(u), t);
        TwoSteps(s, TxProtocol.IncTx(u), Queue(u));
      } else {
        Note(Submit(u, ok), t);
        TwoSteps(s, TxProtocol.IncTx(u), Submit(u, ok));
      }
    }

    /** btusb_tx_complete. */
    method TxComplete(u: Urb)
      requires Enabled(View(), Complete(u))
      modifies this
      ensures View() == Apply(old(View()), Complete(u)) && txInFlight == old(txInFlight) - 1
    {
      ghost var s := View();
      txInFlight := txInFlight - 1;
      Note(Complete(u), s);
    }

    /** btusb_suspend up to the point where it kills the transfers; `busy` is the -EBUSY return. */
    method Suspend(auto: bool) returns (busy: bool)
      requires Inv(View()) && pm.Idle?
      modifies this
      ensures var es := if old(suspendCount) == 0 then [SuspendCall(auto), Decide] else [SuspendCall(auto)];
              Legal(old(View()), es) && View() == Run(old(View()), es)
      ensures busy <==> old(suspendCount) == 0 && auto && Counted(old(View())) != {}
      ensures !busy && old(suspendCount) == 0 ==> suspending && (auto ==> Counted(View()) == {})
    {
      ghost var s := View();
      busy := false;
      suspendCount := suspendCount + 1;
      Note(SuspendCall(auto), s);
      OneStep(s, SuspendCall(auto));
      if suspendCount - 1 != 0 {
        return;
      }
      ghost var t := View();
      assert Counted(t) == Counted(s);
      if !(auto && txInFlight != 0) {
        suspending := true;
      } else {
        suspendCount := suspendCount - 1;
        busy := true;
      }
      Note(Decide, t);
      TwoSteps(s, SuspendCall(auto), Decide);
    }

    /** One round of play_deferred: the next transfer is submitted, then counted. */
    method PlayNext(ok: bool, ghost s: State, ghost results: seq<bool>, ghost i: nat)
      requires i < |results| == |s.deferred| && results[i] == ok && View() == AfterPlaying(s, results, i)
      modifies `place, `deferred, `txInFlight
      ensures View() == AfterPlaying(s, results, i + 1)
    {
      PlayedOneMore(s.place, s.deferred, results, i);
      place := place[deferred[0] := if ok then Outstanding else Failed];
      deferred := deferred[1..];
      txInFlight := txInFlight + 1;
    }

    /**
     play_deferred under the lock, with no sender queueing in between: every queued transfer is
     submitted, in order, and counted whether or not its submission succeeds; no other is touched.
     */
    method PlayDeferred(results: seq<bool>)
      requires Inv(View()) && pm == Playing(false) && |results| == |deferred|
      modifies this
      ensures Legal(old(View()), PlayTrace(results)) && View() == Run(old(View()), PlayTrace(results))
      ensures pm == Ending && deferred == [] && txInFlight == old(txInFlight) + |results|
      ensures forall i :: 0 <= i < |results| ==>
                old(deferred)[i] in place && place[old(deferred)[i]] == if results[i] then Outstanding else Failed
      ensures forall u :: u in old(place) && u !in old(deferred) ==> u in place && place[u] == old(place)[u]
    {
      ghost var s := View();
      var i := 0;
      PlayStarts(s, results);
      while deferred != []
        modifies `place, `deferred, `txInFlight
        invariant i <= |results| && View() == AfterPlaying(s, results, i)
        decreases |deferred|
      {
        PlayNext(results[i], s, results, i);
        i := i + 1;
      }
      PlayEnds(s, results, i);
      PlayedPlaces(s.place, s.deferred, results);
      pm := Ending;
    }
  }

  lemma PlayStarts(s: State, results: seq<bool>)
    requires |results| == |s.deferred|
    ensures AfterPlaying(s, results, 0) == s
  {
  }

  lemma PlayEnds(s: State, results: seq<bool>, i: nat)
    requires Inv(s) && s.pm == Playing(false) && i <= |results| == |s.deferred| && s.deferred[i..] == []
    ensures i == |results| && AfterPlaying(s, results, i).place == PlacesAfter(s.place, s.deferred, results)
    ensures Legal(s, PlayTrace(results))
    ensures Run(s, PlayTrace(results)) == AfterPlaying(s, results, i).(pm := Ending)
  {
    PlayRun(s, results, i);
    assert results[..i] == results && s.deferred[..i] == s.deferred;
    RunOneMore(s, Pairs(results), PlayEnd);
  }

  /** The state after i queued transfers have been submitted and counted. */
  ghost function AfterPlaying(s: State, results: seq<bool>, i: nat): State
    requires i <= |results| == |s.deferred|
  {
    s.(place := PlacesAfter(s.place, s.deferred[..i], results[..i]), deferred := s.deferred[i..],
       inFlight := s.inFlight + i)
  }

  lemma {:induction false} PlayRun(s: State, results: seq<bool>, i: nat)
    requires Inv(s) && s.pm == Playing(false) && i <= |results| == |s.deferred|
    ensures Legal(s, Pairs(results[..i])) && Run(s, Pairs(results[..i])) == AfterPlaying(s, results, i)
  {
    if i == 0 {
      assert Pairs(results[..0]) == [] && s.deferred[0..] == s.deferred;
    } else {
      PlayRun(s, results, i - 1);
      PlayedOneMore(s.place, s.deferred, results, i - 1);
      PlayPair(s, Pairs(results[..i - 1]), results[i - 1]);
    }
  }

  lemma PlayPair(s: State, es: seq<Event>, ok: bool)
    requires Inv(s) && Legal(s, es) && Run(s, es).pm == Playing(false) && Run(s, es).deferred != []
    ensures var t, es' := Run(s, es), es + [PlayOne(ok), CountOne];
            && Legal(s, es')
            && Run(s, es') == t.(place := t.place[t.deferred[0] := if ok then Outstanding else Failed],
                                 deferred := t.deferred[1..], inFlight := t.inFlight + 1)
  {
    var t := Run(s, es);
    InvRun(s, es);
    assert At(t, t.deferred[0], Deferred);
    RunOneMore(s, es, PlayOne(ok));
    RunOneMore(s, es + [PlayOne(ok)], CountOne);
    assert es + [PlayOne(ok)] + [CountOne] == es + [PlayOne(ok), CountOne];
  }

  /** The places after the transfers us have been submitted with the given results. */
  function PlacesAfter(place: map<Urb, Place>, us: seq<Urb>, results: seq<bool>): map<Urb, Place>
    requires |us| == |results|
  {
    if us == [] then place
    else
      var n := |us| - 1;
      PlacesAfter(place, us[..n], results[..n])[us[n] := if results[n] then Outstanding else Failed]
  }

  /** Each transfer ends where its own result puts it. */
  lemma {:induction false} PlayedPlaces(place: map<Urb, Place>, us: seq<Urb>, results: seq<bool>)
    requires |us| == |results| && forall i, j :: 0 <= i < j < |us| ==> us[i] != us[j]
    ensures var p := PlacesAfter(place, us, results);
            && (forall i :: 0 <= i < |us| ==> us[i] in p && p[us[i]] == if results[i] then Outstanding else Failed)
            && (forall u :: u in place && u !in us ==> u in p && p[u] == place[u])
  {
    if us != [] {
      var n := |us| - 1;
      PlayedPlaces(place, us[..n], results[..n]);
      assert forall i :: 0 <= i < n ==> us[i] == us[..n][i];
    }
  }

  function Pairs(results: seq<bool>): seq<Event> {
    if results == [] then []
    else Pairs(results[..|results| - 1]) + [PlayOne(results[|results| - 1]), CountOne]
  }

  lemma PlayedOneMore(place: map<Urb, Place>, us: seq<Urb>, results: seq<bool>, i: nat)
    requires |us| == |results| && i < |us|
    ensures PlacesAfter(place, us[..i + 1], results[..i + 1])
            == PlacesAfter(place, us[..i], results[..i])[us[i] := if results[i] then Outstanding else Failed]
    ensures Pairs(results[..i + 1]) == Pairs(results[..i]) + [PlayOne(results[i]), CountOne]
  {
    assert us[..i + 1][..i] == us[..i] && results[..i + 1][..i] == results[..i];
  }

  /** The events of play_deferred when nobody queues meanwhile. */
  function PlayTrace(results: seq<bool>): seq<Event> {
    Pairs(results) + [PlayEnd]
  }

  lemma OneStep(s: State, e: Event)
    requires Enabled(s, e)
    ensures Legal(s, [e]) && Run(s, [e]) == Apply(s, e)
  {
  }

  lemma TwoSteps(s: State, e: Event, f: Event)
    requires Enabled(s, e) && Enabled(Apply(s, e), f)
    ensures Legal(s, [e, f]) && Run(s, [e, f]) == Apply(Apply(s, e), f)
  {
    OneStep(s, e);
    RunOneMore(s, [e], f);
    assert [e] + [f] == [e, f];
  }
}
