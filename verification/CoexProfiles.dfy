/**
 The event handlers of the coexistence snooper. Handlers run one at a time; a
 failed allocation and the uninitialised fields of fresh records are
 parameters of the event.
 */
module CoexProfiles {

  import opened Octets
  import opened CoexCounts
  import opened CoexMachine
  import opened CoexState

  class Coex {
    var bitmap: set<nat>
    var status: set<nat>
    var refs: seq<int>
    var conns: seq<Conn>
    var chans: seq<Channel>

    /** The global part of the state. */
    ghost function G(): Global
      reads `bitmap, `status, `refs
    {
      Global(bitmap, status, refs)
    }

    /** The whole of it. */
    ghost function S(): State
      reads this
    {
      State(G(), conns, chans)
    }

    ghost predicate Shaped()
      reads `refs, `conns, `chans
    {
      && |refs| == PROFILES && Known(chans)
      && forall c :: c in conns ==> |c.refs| == PROFILES
    }

    ghost predicate Valid()
      reads this
    {
      Shaped() && Consistent(G()) && ConnsOk(conns)
    }

    constructor ()
      ensures Valid() && conns == [] && chans == [] && refs == ZEROS
    {
      bitmap, status, refs, conns, chans := {}, {}, ZEROS, [], [];
    }

    // ------------------------------------------------------ the updates

    /** `update_profile_connection` with is_add set. */
    method Gain(k: nat, i: nat)
      requires Shaped() && k < |conns| && i < PROFILES
      modifies `bitmap, `status, `refs, `conns
      ensures Shaped() && G() == Gained(old(G()), i)
      ensures conns == old(conns)[k := ConnGained(old(conns)[k], i)]
    {
      if refs[i] == 0 {
        bitmap := bitmap + {i};
        if i == SCO {
          status := status + {i};
        }
      }
      refs := refs[i := Inc8(refs[i])];
      var c := conns[k];
      if c.refs[i] == 0 {
        c := c.(bitmap := c.bitmap + {i});
      }
      conns := conns[k := c.(refs := c.refs[i := Inc8(c.refs[i])])];
    }

    /** `update_profile_connection` with is_add clear: at a zero count nothing happens at all. */
    method Lose(k: nat, i: nat)
      requires Shaped() && k < |conns| && i < PROFILES
      modifies `bitmap, `status, `refs, `conns
      ensures Shaped()
      ensures var r := LostBoth(old(G()), old(conns)[k], i);
              G() == r.g && conns == old(conns)[k := r.c]
    {
      if refs[i] == 0 {
        return;
      }
      refs := refs[i := Dec8(refs[i])];
      if refs[i] == 0 {
        bitmap := bitmap - {i};
        status := status - {i};
      }
      var c := conns[k];
      c := c.(refs := c.refs[i := Dec8(c.refs[i])]);
      if c.refs[i] == 0 {
        c := c.(bitmap := c.bitmap - {i}, status := c.status - {i});
        if i == HID && HID_INTERVAL in c.bitmap {
          c := c.(bitmap := c.bitmap - {HID_INTERVAL}, refs := c.refs[HID_INTERVAL := Dec8(c.refs[HID_INTERVAL])]);
        }
      }
      conns := conns[k := c];
    }

    /** `update_profile_state` */
    method SetState(k: nat, i: nat, busy: bool)
      requires Shaped() && k < |conns|
      modifies `conns
      ensures Shaped() && conns == old(conns)[k := StateSet(old(conns)[k], G(), i, busy)]
      ensures ConnsOk(old(conns)) ==> ConnsOk(conns)
      ensures conns == old(conns)[k := old(conns)[k].(status := conns[k].status)]
      ensures forall j :: j in conns[k].status <==> if j == i && i in bitmap then busy else j in old(conns)[k].status
    {
      if ConnsOk(conns) {
        PlacedKeepsIntervals(conns, k, StateSet(conns[k], G(), i, busy));
      }
      if i !in bitmap {
        return;
      }
      var c := conns[k];
      if busy {
        if i !in c.status {
          c := c.(status := c.status + {i});
        } else {
          assert c.status + {i} == c.status;
        }
      } else {
        if i in c.status {
          c := c.(status := c.status - {i});
        } else {
          assert c.status - {i} == c.status;
        }
      }
      conns := conns[k := c];
    }

    /** `update_hid_active_state` */
    method SetInterval(handle: Word, interval: Word)
      requires Shaped()
      modifies `conns
      ensures Shaped()
      ensures conns == IntervalAt(old(conns), handle, interval)
      ensures ConnsOk(old(conns)) ==> ConnsOk(conns)
      ensures var k := ConnAt(old(conns), handle);
              ConnsOk(old(conns)) && k < |conns| && HID in old(conns)[k].bitmap ==>
                && (HID_INTERVAL in conns[k].bitmap <==> interval < 60)
                && (conns[k].bitmap != old(conns)[k].bitmap ==> (HID in conns[k].status <==> interval < 60))
    {
      if ConnsOk(conns) {
        IntervalAtKeeps(conns, handle, interval);
        if ConnAt(conns, handle) < |conns| {
          IntervalMeans(conns[ConnAt(conns, handle)], interval);
        }
      }
      var k := ConnAt(conns, handle);
      if k == |conns| {
        return;
      }
      var c := conns[k];
      if HID !in c.bitmap {
        return;
      }
      if interval < 60 {
        if HID_INTERVAL !in c.bitmap {
          c := c.(bitmap := c.bitmap + {HID_INTERVAL}, refs := c.refs[HID_INTERVAL := Inc8(c.refs[HID_INTERVAL])]);
          if c.refs[HID_INTERVAL] == 1 {
            c := c.(status := c.status + {HID});
          }
        }
      } else {
        if HID_INTERVAL in c.bitmap {
          c := c.(bitmap := c.bitmap - {HID_INTERVAL}, refs := c.refs[HID_INTERVAL := Dec8(c.refs[HID_INTERVAL])]);
          if c.refs[HID_INTERVAL] == 0 {
            c := c.(status := c.status - {HID});
          }
        }
      }
      conns := conns[k := c];
    }

    // --------------------------------------------------- L2CAP channels

    method OnConnReq(handle: Word, psm: Word, scid: Word, out: bool, allocates: bool, noise: Byte)
      requires Shaped()
      modifies `chans
      ensures Shaped()
      ensures var known := if out then ByScid(old(chans), handle, scid) else ByDcid(old(chans), handle, scid);
              if ProfileOf(psm) == IGNORED || known < |old(chans)| || !allocates then chans == old(chans)
              else chans == old(chans) + [Opened(old(chans), handle, psm, scid, out, noise)]
      ensures psm in {0x0001, 0x0017} || !allocates || Taken(old(chans), handle, scid, out) ==> chans == old(chans)
      ensures psm !in {0x0001, 0x0017} && allocates && !Taken(old(chans), handle, scid, out) ==>
                && |chans| == |old(chans)| + 1 && chans[..|old(chans)|] == old(chans)
                && var x := chans[|old(chans)|];
                   && x.handle == handle && x.psm == psm
                   && x.index == (if psm in {0x0011, 0x0013} then HID else if psm == 0x0019 then A2DP else PAN)
                   && (if out then x.scid == scid && x.dcid == 0 else x.dcid == scid && x.scid == 0)
                   && x.flags == if psm != 0x0019 then noise else if HasMedia(old(chans), handle) then 2 else 1
    {
      OpenedFields(chans, handle, psm, scid, out, noise);
      var i := ProfileOf(psm);
      if i == IGNORED {
        return;
      }
      var known := if out then ByScid(chans, handle, scid) else ByDcid(chans, handle, scid);
      if known < |chans| || !allocates {
        return;
      }
      var flags := noise;
      if psm == PSM_AVDTP {
        if ByPsm(chans, handle, psm) == |chans| {
          flags := A2DP_SIGNAL;
        } else {
          flags := A2DP_MEDIA;
        }
      }
      var c := if out then Channel(handle, psm, 0, scid, i, flags) else Channel(handle, psm, scid, 0, i, flags);
      chans := chans + [c];
    }

    method OnConnRsp(handle: Word, dcid: Word, scid: Word, out: bool, result: Word)
      requires Shaped()
      modifies this
      ensures Shaped()
      ensures var x, k := Answered(old(chans), handle, scid, out), ConnAt(old(conns), handle);
              if x == |old(chans)| || result % 256 != 0
              then G() == old(G()) && conns == old(conns) && chans == old(chans)
              else
                && chans == old(chans)[x := Completed(old(chans)[x], dcid, out)]
                && chans[x] == (if out then old(chans)[x].(scid := dcid) else old(chans)[x].(dcid := dcid))
                && old(chans)[x].handle == handle % 4096
                && (if out then old(chans)[x].dcid == scid else old(chans)[x].scid == scid)
                && if k == |old(conns)| then G() == old(G()) && conns == old(conns)
                   else G() == Gained(old(G()), old(chans)[x].index)
                        && conns == old(conns)[k := ConnGained(old(conns)[k], old(chans)[x].index)]
    {
      var x := if !out then ByScid(chans, handle, scid) else ByDcid(chans, handle, scid);
      if x == |chans| || result % 256 != 0 {
        return;
      }
      assert chans[x] in chans;
      chans := chans[x := if !out then chans[x].(dcid := dcid) else chans[x].(scid := dcid)];
      assert chans[x] in chans;
      var k := ConnAt(conns, handle);
      if k < |conns| {
        Gain(k, chans[x].index);
      }
    }

    method OnDisconnReq(handle: Word, dcid: Word, scid: Word, out: bool)
      requires Shaped()
      modifies this
      ensures Shaped()
      ensures var x := if out then ByBoth(old(chans), handle, dcid, scid) else ByBoth(old(chans), handle, scid, dcid);
              var k := ConnAt(old(conns), handle);
              if x == |old(chans)| || k == |old(conns)|
              then G() == old(G()) && conns == old(conns) && chans == old(chans)
              else
                && chans == Without(old(chans), x)
                && var r := Closed(old(G()), old(conns)[k], old(chans)[x].index);
                   G() == r.g && conns == old(conns)[k := r.c]
      ensures old(Valid()) && |chans| < |old(chans)| ==>
                var x := if out then ByBoth(old(chans), handle, dcid, scid) else ByBoth(old(chans), handle, scid, dcid);
                var k, i := ConnAt(old(conns), handle), old(chans)[x].index;
                && x < |old(chans)| && k < |old(conns)|
                && forall j :: 0 <= j < PROFILES ==>
                     var lost := j == i || (i == A2DP && j == SINK && SINK in old(conns)[k].bitmap);
                     refs[j] == if lost && old(refs)[j] > 0 then old(refs)[j] - 1 else old(refs)[j]
    {
      if Valid() {
        CloseByCount(handle, dcid, scid, out);
      }
      var x := if !out then ByBoth(chans, handle, scid, dcid) else ByBoth(chans, handle, dcid, scid);
      if x == |chans| {
        return;
      }
      var k := ConnAt(conns, handle);
      if k == |conns| {
        return;
      }
      assert chans[x] in chans;
      Lose(k, chans[x].index);
      if chans[x].index == A2DP && SINK in conns[k].bitmap {
        Lose(k, SINK);
      }
      chans := Without(chans, x);
    }

    lemma CloseByCount(handle: Word, dcid: Word, scid: Word, out: bool)
      requires Valid()
      ensures var x := if out then ByBoth(chans, handle, dcid, scid) else ByBoth(chans, handle, scid, dcid);
              var k := ConnAt(conns, handle);
              x < |chans| && k < |conns| ==>
                forall j :: 0 <= j < PROFILES ==>
                  Closed(G(), conns[k], chans[x].index).g.refs[j]
                  == if Loses(conns[k], chans[x].index, j) && refs[j] > 0 then refs[j] - 1 else refs[j]
    {
      var x := if out then ByBoth(chans, handle, dcid, scid) else ByBoth(chans, handle, scid, dcid);
      var k := ConnAt(conns, handle);
      if x < |chans| && k < |conns| {
        assert chans[x] in chans;
        ClosedCounts(G(), conns[k], chans[x].index);
      }
    }

    /** A data packet: the first one on a media channel makes A2DP busy, and an incoming one brings in the sink. */
    method OnPacket(handle: Word, scid: Word, out: bool)
      requires Shaped()
      modifies `bitmap, `status, `refs, `conns
      ensures Shaped()
      ensures var k, x := ConnAt(old(conns), handle), Answered(old(chans), handle, scid, out);
              if k < |old(conns)| && old(conns)[k].kind == 0 && x < |old(chans)|
                 && old(chans)[x].index == A2DP && old(chans)[x].flags == A2DP_MEDIA && A2DP !in old(conns)[k].status
              then var r := Heard(old(G()), old(conns)[k], out);
                   G() == r.g && conns == old(conns)[k := r.c]
              else G() == old(G()) && conns == old(conns)
    {
      var k := ConnAt(conns, handle);
      if k == |conns| || conns[k].kind != 0 {
        return;
      }
      var x := if !out then ByScid(chans, handle, scid) else ByDcid(chans, handle, scid);
      if x == |chans| {
        return;
      }
      if chans[x].index == A2DP && chans[x].flags == A2DP_MEDIA && A2DP !in conns[k].status {
        SetState(k, A2DP, true);
        if !out {
          if SINK !in conns[k].bitmap {
            bitmap := bitmap + {SINK};
            conns := conns[k := conns[k].(bitmap := conns[k].bitmap + {SINK})];
            Gain(k, SINK);
          }
          SetState(k, SINK, true);
        }
      }
    }

    // ------------------------------------------------------ connections

    /** The record of a connection, found or made, with its profiles cleared; |conns| if there is no memory. */
    method Enter(handle: Word, kind: nat, allocates: bool, stale: set<nat>) returns (k: nat)
      requires Shaped()
      modifies `conns
      ensures Shaped()
      ensures if ConnAt(old(conns), handle) < |old(conns)| || allocates
              then k == ConnAt(old(conns), handle) && conns == Entered(old(conns), handle, kind, stale)
              else k == |conns| && conns == old(conns)
    {
      k := ConnAt(conns, handle);
      if k < |conns| {
        conns := conns[k := conns[k].(kind := kind, bitmap := {}, refs := ZEROS)];
      } else if allocates {
        conns := conns + [Conn(handle, kind, {}, stale, ZEROS)];
      }
    }

    method OnConnected(handle: Word, ok: bool, sco: bool, allocates: bool, stale: set<nat>)
      requires Shaped()
      modifies this
      ensures Shaped() && chans == old(chans)
      ensures G() == if ok && sco && (allocates || ConnAt(old(conns), handle) < |old(conns)|)
                     then Gained(old(G()), SCO) else old(G())
      ensures var k := ConnAt(old(conns), handle);
              if !ok || (!allocates && k == |old(conns)|) then conns == old(conns)
              else
                var e := Entered(old(conns), handle, if sco then 1 else 0, stale);
                conns == if sco then e[k := ConnGained(e[k], SCO)] else e
    {
      if ok {
        var k := Enter(handle, if sco then 1 else 0, allocates, stale);
        if k < |conns| && sco {
          Gain(k, SCO);
        }
      }
    }

    method OnLeConnected(handle: Word, ok: bool, interval: Word, allocates: bool, stale: set<nat>)
      requires Shaped()
      modifies this
      ensures Shaped() && chans == old(chans)
      ensures G() == if ok && (allocates || ConnAt(old(conns), handle) < |old(conns)|)
                     then Gained(old(G()), HID) else old(G())
      ensures var k := ConnAt(old(conns), handle);
              if !ok || (!allocates && k == |old(conns)|) then conns == old(conns)
              else
                var e := Entered(old(conns), handle, 2, stale);
                && (forall c :: c in e[k := ConnGained(e[k], HID)] ==> |c.refs| == PROFILES)
                && conns == IntervalAt(e[k := ConnGained(e[k], HID)], handle, interval)
    {
      if ok {
        var k := Enter(handle, 2, allocates, stale);
        if k < |conns| {
          Gain(k, HID);
          SetInterval(handle, interval);
        }
      }
    }

    /** `disconn_profile` */
    method ReleaseProfile(k: nat, i: nat)
      requires Shaped() && k < |conns| && i < PROFILES
      modifies `bitmap, `status, `refs, `conns
      ensures Shaped()
      ensures var r := Release(old(G()), old(conns)[k], i);
              G() == r.g && conns == old(conns)[k := r.c]
    {
      if refs[i] == 0 {
        return;
      }
      refs := refs[i := Dec8(refs[i])];
      if refs[i] == 0 {
        bitmap, status := bitmap - {i}, status - {i};
      }
      var c := conns[k];
      if c.refs[i] != 0 {
        c := c.(refs := c.refs[i := Dec8(c.refs[i])]);
      }
      if c.refs[i] == 0 {
        c := c.(bitmap := c.bitmap - {i});
        if i == HID {
          if HID_INTERVAL in c.bitmap {
            c := c.(bitmap := c.bitmap - {HID_INTERVAL});
            if refs[HID_INTERVAL] != 0 {
              refs := refs[HID_INTERVAL := Dec8(refs[HID_INTERVAL])];
            }
          } else {
            assert c.bitmap - {HID_INTERVAL} == c.bitmap;
          }
        }
      }
      conns := conns[k := c];
    }

    method ReleaseChannel(k: nat, x: Channel)
      requires Shaped() && k < |conns| && x.index < PROFILES
      modifies `bitmap, `status, `refs, `conns
      ensures Shaped()
      ensures var r := ReleasedOne(old(G()), old(conns)[k], x);
              G() == r.g && conns == old(conns)[k := r.c]
    {
      ReleaseProfile(k, x.index);
      if MediaBit(x.flags) && SINK in conns[k].bitmap {
        ReleaseProfile(k, SINK);
      }
    }

    /** The walk has passed the first `seen` of all channels, and stands at p. */
    ghost predicate Walking(all: seq<Channel>, g: Global, cs: seq<Conn>, k: nat, handle: Word, seen: nat, p: nat)
      reads this
    {
      && Shaped() && seen <= |all| && Known(all) && Known(all[..seen])
      && |g.refs| == PROFILES && k < |cs| && |cs[k].refs| == PROFILES
      && chans == Remaining(all[..seen], handle) + all[seen..] && p == |Remaining(all[..seen], handle)|
      && var r := ReleasedAll(g, cs[k], all[..seen], handle);
         G() == r.g && conns == cs[k := r.c]
    }

    lemma WalkStarts(k: nat, handle: Word)
      requires Shaped() && k < |conns|
      ensures Walking(chans, G(), conns, k, handle, 0, 0)
    {
      assert chans[..0] == [] && [] + chans == chans;
      assert conns[k := conns[k]] == conns;
    }

    lemma WalkEnds(all: seq<Channel>, g: Global, cs: seq<Conn>, k: nat, handle: Word, seen: nat, p: nat)
      requires Walking(all, g, cs, k, handle, seen, p) && p >= |chans|
      ensures chans == Remaining(all, handle)
      ensures var r := ReleasedAll(g, cs[k], all, handle); G() == r.g && conns == cs[k := r.c]
    {
      assert seen == |all| && all[..seen] == all;
    }

    method ReleaseNext(handle: Word, k: nat, p: nat, ghost all: seq<Channel>, ghost g: Global, ghost cs: seq<Conn>,
                       ghost seen: nat)
      returns (q: nat)
      requires Walking(all, g, cs, k, handle, seen, p) && p < |chans|
      modifies this
      ensures seen < |all| && Walking(all, g, cs, k, handle, seen + 1, q)
    {
      RemainingOne(all, seen, handle, chans);
      ReleasedStep(g, cs[k], all, seen, handle);
      assert all[seen] in all;
      q := p;
      if chans[p].handle == handle {
        ReleaseChannel(k, chans[p]);
        chans := Without(chans, p);
      } else {
        q := p + 1;
      }
    }

    /** `disconn_acl`: the loop deletes from the list it walks. */
    method ReleaseLink(handle: Word, k: nat)
      requires Shaped() && k < |conns|
      modifies this
      ensures Shaped() && chans == Remaining(old(chans), handle)
      ensures var r := ReleasedAll(old(G()), old(conns)[k], old(chans), handle);
              G() == r.g && conns == old(conns)[k := r.c]
    {
      ghost var all, g, cs := chans, G(), conns;
      ghost var seen: nat := 0;
      var p: nat := 0;
      WalkStarts(k, handle);
      while p < |chans|
        modifies this
        invariant Walking(all, g, cs, k, handle, seen, p)
        decreases |all| - seen
      {
        p := ReleaseNext(handle, k, p, all, g, cs, seen);
        seen := seen + 1;
      }
      WalkEnds(all, g, cs, k, handle, seen, p);
    }

    method OnDisconnected(handle: Word, ok: bool)
      requires Shaped()
      modifies this
      ensures Shaped()
      ensures var k := ConnAt(old(conns), handle);
              if !ok || k == |old(conns)| then G() == old(G()) && conns == old(conns) && chans == old(chans)
              else
                && conns == Without(old(conns), k)
                && if old(conns)[k].kind == 0 then
                     && G() == ReleasedAll(old(G()), old(conns)[k], old(chans), handle).g
                     && chans == Remaining(old(chans), handle)
                   else
                     && chans == old(chans)
                     && G() == if old(conns)[k].kind == 1 then Lost(old(G()), SCO)
                               else if old(conns)[k].kind == 2 then Lost(old(G()), HID) else old(G())
    {
      if !ok {
        return;
      }
      var k := ConnAt(conns, handle);
      if k == |conns| {
        return;
      }
      if conns[k].kind == 0 {
        ReleaseLink(handle, k);
      } else if conns[k].kind == 1 {
        Lose(k, SCO);
      } else if conns[k].kind == 2 {
        Lose(k, HID);
      }
      conns := Without(conns, k);
    }

    // ----------------------------------------------------------- timers

    /** A silent second. A2DP turns idle together with the sink, each only if some connection has it. */
    method OnA2dpTimeout(handle: Word, packets: nat)
      requires Shaped()
      modifies `conns
      ensures Shaped() && |conns| == |old(conns)| && (ConnsOk(old(conns)) ==> ConnsOk(conns))
      ensures S() == Silenced(old(S()), handle, packets)
      ensures var k := ConnAt(old(conns), handle);
              if k == |old(conns)| then conns == old(conns)
              else
                && conns == old(conns)[k := old(conns)[k].(status := conns[k].status)]
                && forall j :: j in conns[k].status <==>
                     && j in old(conns)[k].status
                     && !(packets == 0 && A2DP in old(conns)[k].status && j in {A2DP, SINK} && j in bitmap)
    {
      var k := ConnAt(conns, handle);
      if k < |conns| && packets == 0 && A2DP in conns[k].status {
        SetState(k, A2DP, false);
        if SINK in bitmap {
          SetState(k, SINK, false);
        }
      }
    }

    /** PAN is busy exactly from five packets on, if some connection has it. */
    method OnPanTimeout(handle: Word, packets: nat)
      requires Shaped()
      modifies `conns
      ensures Shaped() && |conns| == |old(conns)| && (ConnsOk(old(conns)) ==> ConnsOk(conns))
      ensures S() == Networked(old(S()), handle, packets)
      ensures var k := ConnAt(old(conns), handle);
              if k == |old(conns)| then conns == old(conns)
              else
                && conns == old(conns)[k := old(conns)[k].(status := conns[k].status)]
                && forall j :: j in conns[k].status <==>
                     if j == PAN && PAN in bitmap then packets >= 5 else j in old(conns)[k].status
    {
      var k := ConnAt(conns, handle);
      if k < |conns| {
        if packets < 5 {
          if PAN in conns[k].status {
            SetState(k, PAN, false);
          } else {
            assert conns[k].status - {PAN} == conns[k].status;
          }
        } else {
          if PAN !in conns[k].status {
            SetState(k, PAN, true);
          } else {
            assert conns[k].status + {PAN} == conns[k].status;
          }
        }
      }
    }

    // ------------------------------------------------------------- runs

    /** The profile whose global count an event raises, or PROFILES. */
    function Raised(e: Event): nat
      requires Shaped()
      reads this
    {
      match e
      case ConnRsp(handle, _, scid, out, result) =>
        var x := Answered(chans, handle, scid, out);
        if x < |chans| && result % 256 == 0 && ConnAt(conns, handle) < |conns| then chans[x].index else PROFILES
      case Packet(handle, scid, out) => if !out && FirstMedia(handle, scid, out) then SINK else PROFILES
      case Connected(handle, ok, sco, allocates, _) =>
        if ok && sco && (allocates || ConnAt(conns, handle) < |conns|) then SCO else PROFILES
      case LeConnected(handle, ok, _, allocates, _) =>
        if ok && (allocates || ConnAt(conns, handle) < |conns|) then HID else PROFILES
      case _ => PROFILES
    }

    /** An incoming packet that brings in the sink. */
    predicate FirstMedia(handle: Word, scid: Word, out: bool)
      reads this
    {
      var k, x := ConnAt(conns, handle), Answered(chans, handle, scid, out);
      && k < |conns| && conns[k].kind == 0 && SINK !in conns[k].bitmap && A2DP !in conns[k].status
      && x < |chans| && chans[x].index == A2DP && chans[x].flags == A2DP_MEDIA
    }

    /** The event raises a count that has reached the limit of a signed octet. */
    predicate Overflows(e: Event)
      requires Shaped()
      reads this
    {
      Raised(e) < PROFILES && refs[Raised(e)] == 127
    }

    /** By how much an event lowers the global count of profile i, as far as there are users. */
    ghost function Lowered(e: Event, i: nat): int
      requires Shaped() && ConnsOk(conns)
      reads this
    {
      match e
      case DisconnReq(handle, dcid, scid, out) =>
        var x := if out then ByBoth(chans, handle, dcid, scid) else ByBoth(chans, handle, scid, dcid);
        var k := ConnAt(conns, handle);
        if x < |chans| && k < |conns| && Loses(conns[k], chans[x].index, i) then 1 else 0
      case Disconnected(handle, ok) =>
        var k := ConnAt(conns, handle);
        if !ok || k == |conns| then 0
        else if conns[k].kind == 0 then
          if i == SINK then SinkReleases(G(), conns[k], chans, handle) else Owned(chans, handle, i)
        else if (conns[k].kind == 1 && i == SCO) || (conns[k].kind == 2 && i == HID) then 1 else 0
      case _ => 0
    }

    /** Every global count is what it was, less the users the event takes and plus the one it brings. */
    twostate predicate Tallied(e: Event)
      requires old(Shaped() && ConnsOk(conns)) && Shaped()
      reads this
    {
      forall i :: 0 <= i < PROFILES ==>
        refs[i] == (if old(refs[i]) >= old(Lowered(e, i)) then old(refs[i]) - old(Lowered(e, i)) else 0)
                   + if i == old(Raised(e)) then 1 else 0
    }

    /** What an event leaves behind: a consistent state exactly if it overflows no count. */
    twostate predicate Stepped(e: Event)
      requires old(Shaped() && ConnsOk(conns))
      reads this
    {
      && Shaped() && ConnsOk(conns)
      && (Consistent(G()) <==> !old(Overflows(e)))
      && (!old(Overflows(e)) ==> Tallied(e))
    }

    method StepConnected(e: Event)
      requires Valid() && (e.Connected? || e.LeConnected?)
      modifies this
      ensures Stepped(e) && S() == After(old(S()), e)
    {
      var i := if e.LeConnected? then HID else SCO;
      GainedKeeps(G(), i);
      GainedCounts(G(), i);
      ghost var cs, k, kind := conns, ConnAt(conns, e.handle), if e.LeConnected? then 2 else if e.sco then 1 else 0;
      ghost var entered := Entered(cs, e.handle, kind, e.stale);
      EnteredKeepsIntervals(cs, e.handle, kind, e.stale);
      GainKeepsInterval(entered[k], i);
      PlacedKeepsIntervals(entered, k, ConnGained(entered[k], i));
      if e.LeConnected? {
        IntervalAtKeeps(entered[k := ConnGained(entered[k], i)], e.handle, e.interval);
        OnLeConnected(e.handle, e.ok, e.interval, e.allocates, e.stale);
      } else {
        OnConnected(e.handle, e.ok, e.sco, e.allocates, e.stale);
      }
    }

    method StepDisconnected(e: Event)
      requires Valid() && e.Disconnected?
      modifies this
      ensures Stepped(e) && S() == After(old(S()), e)
    {
      LostKeeps(G(), SCO);
      LostKeeps(G(), HID);
      ghost var k := ConnAt(conns, e.handle);
      if k < |conns| {
        LinkDownCounts(G(), conns[k], chans, e.handle);
        PlacedKeepsIntervals(conns, k, conns[k]);
      }
      OnDisconnected(e.handle, e.ok);
    }

    method StepResponse(e: Event)
      requires Valid() && e.ConnRsp?
      modifies this
      ensures Stepped(e) && S() == After(old(S()), e)
    {
      ghost var x, k := Answered(chans, e.handle, e.scid, e.out), ConnAt(conns, e.handle);
      if x < |chans| {
        assert chans[x] in chans;
        GainedKeeps(G(), chans[x].index);
        GainedCounts(G(), chans[x].index);
        if k < |conns| {
          GainKeepsInterval(conns[k], chans[x].index);
          PlacedKeepsIntervals(conns, k, ConnGained(conns[k], chans[x].index));
        }
      }
      OnConnRsp(e.handle, e.dcid, e.scid, e.out, e.result);
    }

    method StepDisconnReq(e: Event)
      requires Valid() && e.DisconnReq?
      modifies this
      ensures Stepped(e) && S() == After(old(S()), e)
    {
      ghost var x := if e.out then ByBoth(chans, e.handle, e.dcid, e.scid) else ByBoth(chans, e.handle, e.scid, e.dcid);
      ghost var k := ConnAt(conns, e.handle);
      if x < |chans| && k < |conns| {
        assert chans[x] in chans;
        ClosedCounts(G(), conns[k], chans[x].index);
        ClosedKeepsInterval(G(), conns[k], chans[x].index);
        PlacedKeepsIntervals(conns, k, Closed(G(), conns[k], chans[x].index).c);
      }
      OnDisconnReq(e.handle, e.dcid, e.scid, e.out);
    }

    method StepPacket(e: Event)
      requires Valid() && e.Packet?
      modifies this
      ensures Stepped(e) && S() == After(old(S()), e)
    {
      EarlyBit(G(), SINK);
      GainedKeeps(G(), SINK);
      GainedCounts(G(), SINK);
      ghost var k := ConnAt(conns, e.handle);
      if k < |conns| {
        HeardKeepsInterval(G(), conns[k], e.out);
        PlacedKeepsIntervals(conns, k, Heard(G(), conns[k], e.out).c);
      }
      OnPacket(e.handle, e.scid, e.out);
    }

    /** One event: the state stays consistent exactly if no count overflows, and then every count is exact. */
    method Step(e: Event)
      requires Valid()
      modifies this
      ensures Stepped(e) && S() == After(old(S()), e)
    {
      match e
      case ConnReq(h, psm, scid, out, allocates, noise) => OnConnReq(h, psm, scid, out, allocates, noise);
      case ConnRsp(_, _, _, _, _) => StepResponse(e);
      case DisconnReq(_, _, _, _) => StepDisconnReq(e);
      case Packet(_, _, _) => StepPacket(e);
      case Connected(_, _, _, _, _) => StepConnected(e);
      case LeConnected(_, _, _, _, _) => StepConnected(e);
      case Disconnected(_, _) => StepDisconnected(e);
      case ModeChange(h, interval) => SetInterval(h, interval);
      case A2dpTimeout(h, packets) => OnA2dpTimeout(h, packets);
      case PanTimeout(h, packets) => OnPanTimeout(h, packets);
    }

    ghost predicate Within(n: nat)
      reads `refs
    {
      |refs| == PROFILES && forall i :: 0 <= i < PROFILES ==> refs[i] <= n
    }

    /** One event, unless it would overflow a count: then nothing is done. */
    method StepWithin(e: Event, ghost n: nat) returns (ok: bool)
      requires Valid() && Within(n)
      modifies this
      ensures Valid() && ok == !old(Overflows(e))
      ensures if ok then S() == After(old(S()), e) && Within(n + 1) else S() == old(S()) && n >= 127
    {
      ok := !Overflows(e);
      if ok {
        Step(e);
      }
    }

    /**
     Every run keeps the state consistent until an event raises a count that stands at 127, which takes more than
     127 events; and in every connection the interval count is the interval bit, which only a connection with HID
     has.
     */
    method Run(events: seq<Event>) returns (done: nat)
      requires Valid() && refs == ZEROS
      modifies this
      ensures Valid() && done <= |events| && S() == AfterAll(old(S()), events[..done])
      ensures done < |events| ==> Overflows(events[done])
      ensures |events| <= 127 ==> done == |events|
      ensures forall k :: 0 <= k < |conns| ==>
                && conns[k].refs[HID_INTERVAL] == (if HID_INTERVAL in conns[k].bitmap then 1 else 0)
                && (HID_INTERVAL in conns[k].bitmap ==> HID in conns[k].bitmap)
    {
      done := 0;
      while done < |events|
        modifies this
        invariant Valid() && done <= |events| && S() == AfterAll(old(S()), events[..done]) && Within(done)
      {
        OneMore(old(S()), events, done);
        var ok := StepWithin(events[done], done);
        if !ok {
          return;
        }
        done := done + 1;
      }
    }
  }

  lemma OpenedThenClosed(g: Global, c: Conn, i: nat)
    requires Consistent(g) && |c.refs| == PROFILES && i in {HID, A2DP, PAN} && g.refs[i] < 127
    requires i == A2DP ==> SINK !in c.bitmap
    ensures |Gained(g, i).refs| == PROFILES && Closed(Gained(g, i), ConnGained(c, i), i).g == g
  {
    LostAfterGained(g, i);
    GainedCounts(g, i);
  }

  /** A request by one side and the other side's answer: the channel stands behind the others, with both identifiers. */
  method Open(x: Coex, handle: Word, psm: Word, mine: Word, other: Word, out: bool, noise: Byte)
    requires x.Valid() && handle < 4096 && psm !in {0x0001, 0x0017} && ConnAt(x.conns, handle) < |x.conns|
    requires !Taken(x.chans, handle, mine, out)
    modifies x
    ensures x.Shaped()
    ensures var k, i := ConnAt(old(x.conns), handle), ProfileOf(psm);
            && i < PROFILES && x.G() == Gained(old(x.G()), i)
            && x.conns == old(x.conns)[k := ConnGained(old(x.conns)[k], i)]
    ensures var n, c := |old(x.chans)|, Opened(old(x.chans), handle, psm, mine, out, noise);
            x.chans == old(x.chans) + [if out then c.(dcid := other) else c.(scid := other)]
  {
    ghost var before, c := x.chans, Opened(x.chans, handle, psm, mine, out, noise);
    NewestFound(before, c, mine, out);
    OpenedFields(before, handle, psm, mine, out, noise);
    x.OnConnReq(handle, psm, mine, out, true, noise);
    x.OnConnRsp(handle, other, mine, !out, 0);
  }

  /**
   A channel that is requested by one side, granted by the other and closed by either leaves no trace: channels and
   global state are what they were. A2DP is meant on a connection without the sink, which would go as well.
   */
  method OpenAndClose(x: Coex, handle: Word, psm: Word, mine: Word, other: Word, out: bool, noise: Byte, closer: bool)
    requires x.Valid() && handle < 4096 && psm !in {0x0001, 0x0017} && ConnAt(x.conns, handle) < |x.conns|
    requires !Taken(x.chans, handle, mine, out) && x.refs[ProfileOf(psm)] < 127
    requires psm == 0x0019 ==> SINK !in x.conns[ConnAt(x.conns, handle)].bitmap
    modifies x
    ensures x.Shaped() && x.G() == old(x.G()) && x.chans == old(x.chans)
  {
    ghost var before, k, i := x.chans, ConnAt(x.conns, handle), ProfileOf(psm);
    OpenedThenClosed(x.G(), x.conns[k], i);
    Open(x, handle, psm, mine, other, out, noise);
    ghost var c := x.chans[|before|];
    NewestFound(before, c, mine, out);
    SameHandle(old(x.conns), k, x.conns[k], handle);
    var ours, theirs := if out then mine else other, if out then other else mine;
    if closer {
      x.OnDisconnReq(handle, theirs, ours, true);
    } else {
      x.OnDisconnReq(handle, ours, theirs, false);
    }
  }

  lemma SameHandle(conns: seq<Conn>, k: nat, c: Conn, handle: Word)
    requires k == ConnAt(conns, handle) < |conns| && c.handle == conns[k].handle
    ensures ConnAt(conns[k := c], handle) == k
  {
    var n := conns[k := c];
    assert forall j :: 0 <= j < |n| ==> n[j].handle == conns[j].handle;
  }

  /** A channel put behind others that do not have its identifier is the one found by it. */
  lemma NewestFound(chans: seq<Channel>, x: Channel, mine: Word, out: bool)
    requires x.handle < 4096 && !Taken(chans, x.handle, mine, out) && (if out then x.scid else x.dcid) == mine
    ensures var all := chans + [x];
            && (if out then ByScid(all, x.handle, mine) else ByDcid(all, x.handle, mine)) == |chans|
            && ByBoth(all, x.handle, x.dcid, x.scid) == |chans|
            && Without(all, |chans|) == chans
  {
    var all := chans + [x];
    assert forall j :: 0 <= j < |chans| ==> all[j] == chans[j];
    assert all[|chans|] == x;
  }
}
