/**
 The updates of CoexState in counts: which profile gains or loses how many users, globally and in the connection,
 when a channel opens or closes, media starts, or a link goes down.
 */
module CoexCounts {

  import opened CoexState
  import opened Octets

  predicate Fits(refs: seq<int>) {
    |refs| == PROFILES && forall i :: 0 <= i < PROFILES ==> -128 <= refs[i] < 128
  }

  /** A signed octet one less, and one more. */
  function Less(x: int): int { (x + 127) % 256 - 128 }
  function More(x: int): int { (x + 129) % 256 - 128 }

  /** One user more: the count goes up, the bit is set, and a first SCO user is busy at once. */
  lemma GainedCounts(g: Global, i: nat)
    requires Consistent(g) && Used(i)
    ensures var h := Gained(g, i);
            && (g.refs[i] < 127 ==> h.refs == g.refs[i := g.refs[i] + 1] && h.bitmap == g.bitmap + {i})
            && (g.refs[i] == 127 ==> h.refs == g.refs[i := -128] && h.bitmap == g.bitmap)
            && (SCO in h.status <==> SCO in g.status || (i == SCO && g.refs[i] == 0))
  {
  }

  lemma ConnGainedCounts(c: Conn, i: nat)
    requires Fits(c.refs) && i < PROFILES
    ensures var d := ConnGained(c, i);
            && d.refs == c.refs[i := More(c.refs[i])] && d == c.(refs := d.refs, bitmap := d.bitmap)
            && d.bitmap == if c.refs[i] == 0 then c.bitmap + {i} else c.bitmap
  {
  }

  /** Profile j loses a user when a channel of profile i is closed: i itself, and the sink with A2DP. */
  predicate Loses(c: Conn, i: nat, j: nat) {
    j == i || (i == A2DP && j == SINK && SINK in c.bitmap)
  }

  /**
   Closing a channel of profile i: i has one user less globally, never below zero, and if it is A2DP on a connection
   with the sink, so has the sink; no other count changes.
   */
  lemma ClosedCounts(g: Global, c: Conn, i: nat)
    requires Consistent(g) && |c.refs| == PROFILES && i in {HID, A2DP, PAN}
    ensures var h := Closed(g, c, i).g;
            && Consistent(h)
            && forall j :: 0 <= j < PROFILES ==>
                 h.refs[j] == if Loses(c, i, j) && g.refs[j] > 0 then g.refs[j] - 1 else g.refs[j]
  {
    LostKeeps(g, i);
    LostKeeps(LostBoth(g, c, i).g, SINK);
  }

  /**
   The connection's own counts follow wherever the global one was not zero, wrapping as signed octets; a bit goes with
   the count that becomes zero, and the interval bit, with its count, goes with HID.
   */
  lemma ClosedInConnection(g: Global, c: Conn, i: nat)
    requires Consistent(g) && ConnOk(c) && i in {HID, A2DP, PAN}
    ensures var d := Closed(g, c, i).c;
            && d == c.(refs := d.refs, bitmap := d.bitmap, status := d.status)
            && (forall j :: 0 <= j < PROFILES && j != HID_INTERVAL ==>
                  var lost := Loses(c, i, j) && g.refs[j] > 0;
                  && d.refs[j] == (if lost then Less(c.refs[j]) else c.refs[j])
                  && (j in d.bitmap <==> j in c.bitmap && !(lost && d.refs[j] == 0))
                  && (j in d.status <==> j in c.status && !(lost && d.refs[j] == 0)))
            && (HID_INTERVAL in d.bitmap <==>
                  HID_INTERVAL in c.bitmap && !(i == HID && g.refs[HID] > 0 && d.refs[HID] == 0))
  {
  }

  /** The first packet on an idle media channel: A2DP turns busy, and with an incoming one the sink comes in. */
  lemma HeardCounts(g: Global, c: Conn, out: bool)
    requires Consistent(g) && ConnOk(c) && A2DP in g.bitmap
    ensures var r, brings := Heard(g, c, out), !out && SINK !in c.bitmap;
            && A2DP in r.c.status && (!out && SINK in r.g.bitmap ==> SINK in r.c.status)
            && (g.refs[SINK] < 127 ==>
                  r.g.refs == if brings then g.refs[SINK := g.refs[SINK] + 1] else g.refs)
            && r.c.refs == (if brings then c.refs[SINK := More(c.refs[SINK])] else c.refs)
            && (SINK in r.c.bitmap <==> !out || SINK in c.bitmap)
            && (forall j :: j != A2DP && j != SINK ==> (j in r.c.status <==> j in c.status))
  {
  }

  // -------------------------------------------------- a link going down

  /** Media channels of a link. */
  function MediaChannels(chans: seq<Channel>, handle: Word): nat
    decreases |chans|
  {
    if chans == [] then 0
    else
      var x := chans[|chans| - 1];
      MediaChannels(chans[..|chans| - 1], handle) + if x.handle == handle && x.flags / 2 % 2 == 1 then 1 else 0
  }

  /** How many releases use up a connection's count of the sink. */
  function Takes(count: int): nat
    requires -128 <= count < 128
  {
    if count == 0 then 1 else if count > 0 then count else count + 256
  }

  function Min(a: int, b: int): int { if a <= b then a else b }

  /** Sink users a link releases: one per media channel, while the connection has the sink and users are left. */
  function SinkReleases(g: Global, c: Conn, chans: seq<Channel>, handle: Word): int
    requires |g.refs| == PROFILES && Fits(c.refs)
  {
    if SINK in c.bitmap then Min(MediaChannels(chans, handle), Min(Takes(c.refs[SINK]), g.refs[SINK])) else 0
  }

  /** After n of them. */
  predicate SinkAfter(g: Global, c: Conn, r: Released, n: int)
    requires |g.refs| == PROFILES == |r.g.refs| && Fits(c.refs) && |r.c.refs| == PROFILES
  {
    && r.g.refs[SINK] == g.refs[SINK] - n && -128 <= r.c.refs[SINK] < 128
    && (SINK in c.bitmap ==> n <= Takes(c.refs[SINK]) && (SINK in r.c.bitmap <==> n < Takes(c.refs[SINK])))
    && (SINK in r.c.bitmap ==> SINK in c.bitmap && Takes(r.c.refs[SINK]) == Takes(c.refs[SINK]) - n)
  }

  lemma ReleasedOneSink(g: Global, c: Conn, x: Channel)
    requires Consistent(g) && |c.refs| == PROFILES && x.index in {HID, A2DP, PAN}
    ensures var r, takes := ReleasedOne(g, c, x), MediaBit(x.flags) && SINK in c.bitmap && g.refs[SINK] > 0;
            && r.g.refs[SINK] == (if takes then g.refs[SINK] - 1 else g.refs[SINK])
            && r.c.refs[SINK] == (if takes && c.refs[SINK] != 0 then Dec8(c.refs[SINK]) else c.refs[SINK])
            && (SINK in r.c.bitmap <==> SINK in c.bitmap && !(takes && r.c.refs[SINK] == 0))
  {
    LostKeeps(g, x.index);
  }

  /** A link going down takes exactly so many users from the sink. */
  lemma {:induction false} LinkDownSink(g: Global, c: Conn, chans: seq<Channel>, handle: Word)
    requires Consistent(g) && Fits(c.refs) && Known(chans)
    ensures SinkAfter(g, c, ReleasedAll(g, c, chans, handle), SinkReleases(g, c, chans, handle))
    decreases |chans|
  {
    if chans != [] {
      var n := |chans| - 1;
      LinkDownSink(g, c, chans[..n], handle);
      LinkDownSubtracts(g, c, chans[..n], handle);
      var r := ReleasedAll(g, c, chans[..n], handle);
      if chans[n].handle == handle {
        ReleasedOneSink(r.g, r.c, chans[n]);
      }
    }
  }

  /** A link going down, for every profile: one user per channel, and the sink as above. */
  lemma LinkDownCounts(g: Global, c: Conn, chans: seq<Channel>, handle: Word)
    requires Consistent(g) && Fits(c.refs) && Known(chans)
    ensures var h := ReleasedAll(g, c, chans, handle).g;
            && Consistent(h)
            && forall i :: 0 <= i < PROFILES ==>
                 h.refs[i] == if i == SINK then g.refs[i] - SinkReleases(g, c, chans, handle)
                              else Minus(g.refs[i], Owned(chans, handle, i))
  {
    LinkDownSubtracts(g, c, chans, handle);
    LinkDownSink(g, c, chans, handle);
  }
}
