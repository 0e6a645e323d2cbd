/**
 What the coexistence snooper notes about Bluetooth profiles: global reference
 counts with a bitmap and a status word, the same per connection, and the list
 of L2CAP channels it has seen. This module holds the values and the effect of
 single updates on them; CoexProfiles has the event handlers.

 Bitmaps are sets of profile indices. Reference counts are signed octets and
 wrap.
 */
module CoexState {

  import opened Octets

  const SCO: nat := 0
  const HID: nat := 1
  const A2DP: nat := 2
  const PAN: nat := 3
  const HID_INTERVAL: nat := 4
  const HOGP: nat := 5
  const VOICE: nat := 6
  const SINK: nat := 7
  const PROFILES: nat := 8

  const IGNORED: nat := 0xFF

  const A2DP_SIGNAL: Byte := 1
  const A2DP_MEDIA: Byte := 2

  function Inc8(x: int): int { if x == 127 then -128 else x + 1 }
  function Dec8(x: int): int { if x == -128 then 127 else x - 1 }

  const ZEROS: seq<int> := [0, 0, 0, 0, 0, 0, 0, 0]

  datatype Global = Global(bitmap: set<nat>, status: set<nat>, refs: seq<int>)

  datatype Conn = Conn(handle: Word, kind: nat, bitmap: set<nat>, status: set<nat>, refs: seq<int>)

  datatype Channel = Channel(handle: Word, psm: Word, dcid: Word, scid: Word, index: nat, flags: Byte)

  predicate MediaBit(flags: Byte) { flags / 2 % 2 == 1 }

  function ProfileOf(psm: Word): (i: nat)
    ensures i in {IGNORED, HID, A2DP, PAN}
  {
    if psm == 0x0017 || psm == 0x0001 then IGNORED
    else if psm == 0x0011 || psm == 0x0013 then HID
    else if psm == 0x0019 then A2DP
    else PAN
  }

  /** Position of the first element with a property, or the length. */
  function First<T>(s: seq<T>, p: T -> bool): (k: nat)
    ensures k <= |s|
    ensures k < |s| ==> p(s[k])
    ensures forall j :: 0 <= j < k ==> !p(s[j])
  {
    if s == [] || p(s[0]) then 0 else 1 + First(s[1..], p)
  }

  function Mask(handle: Word): Word { handle % 0x1000 }

  function ConnAt(conns: seq<Conn>, handle: Word): (k: nat)
    ensures k <= |conns| && (k < |conns| ==> conns[k].handle == handle % 4096)
    ensures forall j :: 0 <= j < k ==> !(conns[j].handle == handle % 4096)
  {
    First(conns, (c: Conn) => c.handle == Mask(handle))
  }

  function ByScid(chans: seq<Channel>, handle: Word, scid: Word): (k: nat)
    ensures k <= |chans| && (k < |chans| ==> chans[k].handle == handle % 4096 && chans[k].scid == scid)
    ensures forall j :: 0 <= j < k ==> !(chans[j].handle == handle % 4096 && chans[j].scid == scid)
  {
    First(chans, (c: Channel) => c.handle == Mask(handle) && c.scid == scid)
  }

  function ByDcid(chans: seq<Channel>, handle: Word, dcid: Word): (k: nat)
    ensures k <= |chans| && (k < |chans| ==> chans[k].handle == handle % 4096 && chans[k].dcid == dcid)
    ensures forall j :: 0 <= j < k ==> !(chans[j].handle == handle % 4096 && chans[j].dcid == dcid)
  {
    First(chans, (c: Channel) => c.handle == Mask(handle) && c.dcid == dcid)
  }

  function ByBoth(chans: seq<Channel>, handle: Word, dcid: Word, scid: Word): (k: nat)
    ensures k <= |chans|
    ensures k < |chans| ==> chans[k].handle == handle % 4096 && chans[k].dcid == dcid && chans[k].scid == scid
    ensures forall j :: 0 <= j < k ==>
              !(chans[j].handle == handle % 4096 && chans[j].dcid == dcid && chans[j].scid == scid)
  {
    First(chans, (c: Channel) => c.handle == Mask(handle) && c.dcid == dcid && c.scid == scid)
  }

  function ByPsm(chans: seq<Channel>, handle: Word, psm: Word): (k: nat)
    ensures k <= |chans| && (k < |chans| ==> chans[k].handle % 4096 == handle % 4096 && chans[k].psm == psm)
    ensures forall j :: 0 <= j < k ==> !(chans[j].handle % 4096 == handle % 4096 && chans[j].psm == psm)
  {
    First(chans, (c: Channel) => Mask(c.handle) == Mask(handle) && c.psm == psm)
  }

  function Without<T>(s: seq<T>, k: nat): seq<T>
    requires k < |s|
  {
    s[..k] + s[k + 1..]
  }

  // -------------------------------------------------- one global update

  /** A profile gains a user. */
  function Gained(g: Global, i: nat): Global
    requires i < |g.refs|
  {
    var h := if g.refs[i] != 0 then g
             else g.(bitmap := g.bitmap + {i}, status := if i == SCO then g.status + {i} else g.status);
    h.(refs := g.refs[i := Inc8(g.refs[i])])
  }

  /** A profile loses a user; at zero nothing happens. */
  function Lost(g: Global, i: nat): Global
    requires i < |g.refs|
  {
    if g.refs[i] == 0 then g
    else
      var n := Dec8(g.refs[i]);
      var h := if n != 0 then g else g.(bitmap := g.bitmap - {i}, status := g.status - {i});
      h.(refs := g.refs[i := n])
  }

  /**
   The bitmap says which counts are nonzero, no count is negative, only SCO is
   ever busy globally, and three counts are never used.
   */
  ghost predicate Consistent(g: Global) {
    && |g.refs| == PROFILES
    && (forall i :: 0 <= i < PROFILES ==> g.refs[i] >= 0 && (i in g.bitmap <==> g.refs[i] != 0))
    && g.status == g.bitmap * {SCO}
    && (forall i :: i in g.bitmap ==> i < PROFILES)
    && g.refs[HID_INTERVAL] == 0 && g.refs[HOGP] == 0 && g.refs[VOICE] == 0
  }

  predicate Used(i: nat) {
    i in {SCO, HID, A2DP, PAN, SINK}
  }

  /** The consistent state with given counts is unique: bitmap and status carry no information of their own. */
  lemma CountsDecide(a: Global, b: Global)
    requires Consistent(a) && Consistent(b) && a.refs == b.refs
    ensures a == b
  {
  }

  /** Gaining a user keeps the state consistent exactly below the limit of a signed octet. */
  lemma GainedKeeps(g: Global, i: nat)
    requires Consistent(g) && Used(i)
    ensures Consistent(Gained(g, i)) <==> g.refs[i] != 127
  {
  }

  lemma LostKeeps(g: Global, i: nat)
    requires Consistent(g) && i < PROFILES
    ensures Consistent(Lost(g, i))
    ensures Lost(g, i).refs == g.refs[i := if g.refs[i] > 0 then g.refs[i] - 1 else 0]
  {
  }

  /** Losing undoes gaining. */
  lemma LostAfterGained(g: Global, i: nat)
    requires Consistent(g) && Used(i) && g.refs[i] != 127
    ensures Lost(Gained(g, i), i) == g
  {
  }

  /** A bit set a moment before the count makes no difference. */
  lemma EarlyBit(g: Global, i: nat)
    requires Consistent(g) && Used(i)
    ensures Gained(g.(bitmap := g.bitmap + {i}), i) == Gained(g, i)
  {
  }

  // ---------------------------------------------- one connection update

  function ConnGained(c: Conn, i: nat): Conn
    requires i < |c.refs|
  {
    c.(bitmap := if c.refs[i] == 0 then c.bitmap + {i} else c.bitmap,
       refs := c.refs[i := Inc8(c.refs[i])])
  }

  /** The connection's HID interval bit goes with its last HID user. */
  function IntervalCleared(c: Conn): Conn
    requires HID_INTERVAL < |c.refs|
  {
    if HID_INTERVAL in c.bitmap
    then c.(bitmap := c.bitmap - {HID_INTERVAL}, refs := c.refs[HID_INTERVAL := Dec8(c.refs[HID_INTERVAL])])
    else c
  }

  function ConnLost(c: Conn, i: nat): Conn
    requires i < |c.refs| == PROFILES
  {
    var d := c.(refs := c.refs[i := Dec8(c.refs[i])]);
    if d.refs[i] != 0 then d
    else
      var e := d.(bitmap := d.bitmap - {i}, status := d.status - {i});
      if i == HID then IntervalCleared(e) else e
  }

  /** The variant used when a whole link goes down: saturating, and the connection's own interval count stays. */
  function ConnReleased(c: Conn, i: nat): Conn
    requires i < |c.refs| == PROFILES
  {
    var d := if c.refs[i] != 0 then c.(refs := c.refs[i := Dec8(c.refs[i])]) else c;
    if d.refs[i] != 0 then d
    else
      var e := d.(bitmap := d.bitmap - {i});
      if i == HID then e.(bitmap := e.bitmap - {HID_INTERVAL}) else e
  }

  /** The HID interval of a connection: below 60 it counts as busy. */
  function IntervalSet(c: Conn, interval: Word): Conn
    requires |c.refs| == PROFILES
  {
    if HID !in c.bitmap then c
    else if interval < 60 && HID_INTERVAL !in c.bitmap then
      var n := Inc8(c.refs[HID_INTERVAL]);
      c.(bitmap := c.bitmap + {HID_INTERVAL}, refs := c.refs[HID_INTERVAL := n],
         status := if n == 1 then c.status + {HID} else c.status)
    else if interval >= 60 && HID_INTERVAL in c.bitmap then
      var n := Dec8(c.refs[HID_INTERVAL]);
      c.(bitmap := c.bitmap - {HID_INTERVAL}, refs := c.refs[HID_INTERVAL := n],
         status := if n == 0 then c.status - {HID} else c.status)
    else c
  }

  /** Busy or idle, for a profile that exists globally. */
  function StateSet(c: Conn, g: Global, i: nat, busy: bool): (d: Conn)
    ensures d == c.(status := d.status)
    ensures forall j :: j in d.status <==> if j == i && i in g.bitmap then busy else j in c.status
  {
    if i !in g.bitmap then c
    else c.(status := if busy then c.status + {i} else c.status - {i})
  }

  // -------------------------------------------- the interval of a connection

  /** Counts are signed octets; the interval count of a connection is its interval bit, and the bit needs HID. */
  predicate ConnOk(c: Conn) {
    && |c.refs| == PROFILES && (forall i :: 0 <= i < PROFILES ==> -128 <= c.refs[i] < 128)
    && c.refs[HID_INTERVAL] == (if HID_INTERVAL in c.bitmap then 1 else 0)
    && (HID_INTERVAL in c.bitmap ==> HID in c.bitmap)
  }

  ghost predicate ConnsOk(conns: seq<Conn>) {
    forall k :: 0 <= k < |conns| ==> ConnOk(conns[k])
  }

  /**
   What the interval update achieves on such a connection: with HID the bit says whether the last
   interval was below 60, HID turns busy or idle whenever the bit changes, and nothing else changes.
   */
  lemma IntervalMeans(c: Conn, interval: Word)
    requires ConnOk(c)
    ensures var d := IntervalSet(c, interval);
            && ConnOk(d)
            && (HID in c.bitmap ==> (HID_INTERVAL in d.bitmap <==> interval < 60))
            && (d.bitmap != c.bitmap ==> (HID in d.status <==> interval < 60))
            && (d.bitmap == c.bitmap ==> d == c)
            && d.bitmap - {HID_INTERVAL} == c.bitmap - {HID_INTERVAL} && d.status - {HID} == c.status - {HID}
            && (forall i :: 0 <= i < PROFILES && i != HID_INTERVAL ==> d.refs[i] == c.refs[i])
  {
  }

  /**
   So only the last interval counts for bitmap and counts. The busy status can differ: an earlier interval that
   flips the bit and is taken back by the last one still leaves HID busy or idle as the last one says.
   */
  lemma LastIntervalCounts(c: Conn, first: Word, last: Word)
    requires ConnOk(c)
    ensures IntervalSet(IntervalSet(c, first), last).bitmap == IntervalSet(c, last).bitmap
    ensures IntervalSet(IntervalSet(c, first), last).refs == IntervalSet(c, last).refs
    ensures IntervalSet(IntervalSet(c, first), last).status == IntervalSet(c, last).status
            <==> !FlipsAndReturns(c, first, last) || (HID in c.status <==> last < 60)
  {
  }

  predicate FlipsAndReturns(c: Conn, first: Word, last: Word) {
    && HID in c.bitmap
    && (first < 60 <==> HID_INTERVAL !in c.bitmap)
    && (last < 60 <==> HID_INTERVAL in c.bitmap)
  }

  lemma GainKeepsInterval(c: Conn, i: nat)
    requires ConnOk(c) && i < PROFILES && i != HID_INTERVAL
    ensures ConnOk(ConnGained(c, i))
  {
  }

  lemma LossKeepsInterval(c: Conn, i: nat)
    requires ConnOk(c) && i < PROFILES && i != HID_INTERVAL
    ensures ConnOk(ConnLost(c, i))
  {
  }

  /** The release used when a link goes down does not: it leaves the count behind, in a record about to be deleted. */
  lemma ReleaseKeepsIntervalIff(c: Conn, i: nat)
    requires ConnOk(c) && i < PROFILES && i != HID_INTERVAL
    ensures ConnOk(ConnReleased(c, i)) <==> !DropsInterval(c, i)
  {
  }

  lemma ClosedKeepsInterval(g: Global, c: Conn, i: nat)
    requires |g.refs| == PROFILES && ConnOk(c) && i < PROFILES && i != HID_INTERVAL
    ensures ConnOk(Closed(g, c, i).c)
  {
    LossKeepsInterval(c, i);
    LossKeepsInterval(LostBoth(g, c, i).c, SINK);
  }

  lemma HeardKeepsInterval(g: Global, c: Conn, out: bool)
    requires |g.refs| == PROFILES && ConnOk(c)
    ensures ConnOk(Heard(g, c, out).c)
  {
  }

  lemma PlacedKeepsIntervals(conns: seq<Conn>, k: nat, c: Conn)
    requires ConnsOk(conns) && k < |conns| && ConnOk(c)
    ensures ConnsOk(conns[k := c]) && ConnsOk(Without(conns, k))
  {
  }

  lemma EnteredKeepsIntervals(conns: seq<Conn>, handle: Word, kind: nat, stale: set<nat>)
    requires ConnsOk(conns)
    ensures ConnsOk(Entered(conns, handle, kind, stale))
  {
    var k := ConnAt(conns, handle);
    if k < |conns| {
      PlacedKeepsIntervals(conns, k, conns[k].(kind := kind, bitmap := {}, refs := ZEROS));
    }
  }

  lemma IntervalAtKeeps(conns: seq<Conn>, handle: Word, interval: Word)
    requires ConnsOk(conns)
    ensures ConnsOk(IntervalAt(conns, handle, interval))
  {
    var k := ConnAt(conns, handle);
    if k < |conns| {
      IntervalMeans(conns[k], interval);
      PlacedKeepsIntervals(conns, k, IntervalSet(conns[k], interval));
    }
  }

  // ----------------------------------------- both, for one connection

  datatype Released = Released(g: Global, c: Conn)

  /** One user less; at a zero global count the connection is left alone as well. */
  function LostBoth(g: Global, c: Conn, i: nat): (r: Released)
    requires i < |g.refs| == PROFILES == |c.refs|
    ensures |r.g.refs| == PROFILES == |r.c.refs|
  {
    if g.refs[i] == 0 then Released(g, c) else Released(Lost(g, i), ConnLost(c, i))
  }

  /** A channel of profile i is closed; with A2DP goes the sink. */
  function Closed(g: Global, c: Conn, i: nat): (r: Released)
    requires i < |g.refs| == PROFILES == |c.refs|
  {
    var r := LostBoth(g, c, i);
    if i == A2DP && SINK in r.c.bitmap then LostBoth(r.g, r.c, SINK) else r
  }

  /** The first packet on an idle media channel. */
  function Heard(g: Global, c: Conn, out: bool): (r: Released)
    requires |g.refs| == PROFILES == |c.refs|
  {
    var d := StateSet(c, g, A2DP, true);
    if out then Released(g, d)
    else if SINK in d.bitmap then Released(g, StateSet(d, g, SINK, true))
    else
      var h := Gained(g.(bitmap := g.bitmap + {SINK}), SINK);
      Released(h, StateSet(ConnGained(d.(bitmap := d.bitmap + {SINK}), SINK), h, SINK, true))
  }

  // --------------------------------------------------------- connections

  /** The connections once one is found or made for a handle, with its profiles cleared. */
  function Entered(conns: seq<Conn>, handle: Word, kind: nat, stale: set<nat>): (r: seq<Conn>)
    ensures ConnAt(conns, handle) < |r|
    ensures var k := ConnAt(conns, handle);
            && r[k].refs == [0, 0, 0, 0, 0, 0, 0, 0] && r[k].bitmap == {} && r[k].kind == kind
            && (k == |conns| ==> r[k].handle == handle && r == conns + [r[k]])
            && (k < |conns| ==>
                  r == conns[k := r[k]] && r[k].handle == conns[k].handle && r[k].status == conns[k].status)
  {
    var k := ConnAt(conns, handle);
    if k < |conns| then conns[k := conns[k].(kind := kind, bitmap := {}, refs := ZEROS)]
    else conns + [Conn(handle, kind, {}, stale, ZEROS)]
  }

  function IntervalAt(conns: seq<Conn>, handle: Word, interval: Word): seq<Conn>
    requires forall c :: c in conns ==> |c.refs| == PROFILES
  {
    var k := ConnAt(conns, handle);
    if k < |conns| then conns[k := IntervalSet(conns[k], interval)] else conns
  }

  // -------------------------------------------------- a link going down

  /** The channels of a link, released in list order; media channels release the sink as well. */
  function ReleasedAll(g: Global, c: Conn, chans: seq<Channel>, handle: Word): (r: Released)
    requires |g.refs| == PROFILES == |c.refs| && forall x :: x in chans ==> x.index < PROFILES
    ensures |r.g.refs| == PROFILES == |r.c.refs|
    decreases |chans|
  {
    if chans == [] then Released(g, c)
    else
      var n := |chans| - 1;
      var r := ReleasedAll(g, c, chans[..n], handle);
      if chans[n].handle == handle then ReleasedOne(r.g, r.c, chans[n]) else r
  }

  /** The last HID user of this connection goes, and its interval bit is set. */
  predicate DropsInterval(c: Conn, i: nat)
    requires i < |c.refs| == PROFILES
  {
    i == HID && ConnReleased(c, i).refs[i] == 0 && HID_INTERVAL in c.bitmap
  }

  /** The snooper's `disconn_profile`; it would lower the global interval count too, were that ever nonzero. */
  function Release(g: Global, c: Conn, i: nat): (r: Released)
    requires i < |g.refs| == PROFILES && |c.refs| == PROFILES
    ensures |r.g.refs| == PROFILES == |r.c.refs|
  {
    if g.refs[i] == 0 then Released(g, c)
    else
      var h := Lost(g, i);
      Released(if DropsInterval(c, i) && h.refs[HID_INTERVAL] != 0
               then h.(refs := h.refs[HID_INTERVAL := Dec8(h.refs[HID_INTERVAL])]) else h,
               ConnReleased(c, i))
  }

  function ReleasedOne(g: Global, c: Conn, x: Channel): (r: Released)
    requires |g.refs| == PROFILES == |c.refs| && x.index < PROFILES
    ensures |r.g.refs| == PROFILES == |r.c.refs|
  {
    var r := Release(g, c, x.index);
    if MediaBit(x.flags) && SINK in r.c.bitmap then Release(r.g, r.c, SINK) else r
  }

  function Remaining(chans: seq<Channel>, handle: Word): seq<Channel>
    decreases |chans|
  {
    if chans == [] then []
    else Remaining(chans[..|chans| - 1], handle)
         + if chans[|chans| - 1].handle == handle then [] else [chans[|chans| - 1]]
  }

  /** Channels of a link that count for a profile. */
  function Owned(chans: seq<Channel>, handle: Word, i: nat): nat
    decreases |chans|
  {
    if chans == [] then 0
    else
      var x := chans[|chans| - 1];
      Owned(chans[..|chans| - 1], handle, i) + if x.handle == handle && x.index == i then 1 else 0
  }

  predicate Known(chans: seq<Channel>) {
    forall x :: x in chans ==> x.index in {HID, A2DP, PAN}
  }

  function Minus(a: int, b: nat): int { if a >= b then a - b else 0 }

  lemma ReleasedOneKeeps(g: Global, c: Conn, x: Channel)
    requires Consistent(g) && |c.refs| == PROFILES && x.index in {HID, A2DP, PAN}
    ensures var h := ReleasedOne(g, c, x).g;
            && Consistent(h)
            && (forall i :: 0 <= i < SINK ==> h.refs[i] == if i == x.index then Minus(g.refs[i], 1) else g.refs[i])
            && h.refs[SINK] <= g.refs[SINK]
  {
    LostKeeps(g, x.index);
    var r := Release(g, c, x.index);
    LostKeeps(r.g, SINK);
  }

  /**
   A link going down takes one user per channel from each profile, never below
   zero, touches no other profile but the sink, and keeps the state consistent.
   */
  lemma {:induction false} LinkDownSubtracts(g: Global, c: Conn, chans: seq<Channel>, handle: Word)
    requires Consistent(g) && |c.refs| == PROFILES && Known(chans)
    ensures var h := ReleasedAll(g, c, chans, handle).g;
            && Consistent(h)
            && (forall i :: 0 <= i < SINK ==> h.refs[i] == Minus(g.refs[i], Owned(chans, handle, i)))
            && h.refs[SINK] <= g.refs[SINK]
    decreases |chans|
  {
    if chans != [] {
      var n := |chans| - 1;
      var r := ReleasedAll(g, c, chans[..n], handle);
      LinkDownSubtracts(g, c, chans[..n], handle);
      if chans[n].handle == handle {
        ReleasedOneKeeps(r.g, r.c, chans[n]);
      }
    }
  }

  lemma {:induction false} RemainingIs(chans: seq<Channel>, handle: Word)
    ensures forall x :: x in Remaining(chans, handle) <==> x in chans && x.handle != handle
    decreases |chans|
  {
    if chans != [] {
      RemainingIs(chans[..|chans| - 1], handle);
      assert chans == chans[..|chans| - 1] + [chans[|chans| - 1]];
    }
  }

  /** One round of the walk that deletes channels from the list it walks. */
  lemma RemainingOne(all: seq<Channel>, seen: nat, handle: Word, chans: seq<Channel>)
    requires seen < |all| && chans == Remaining(all[..seen], handle) + all[seen..]
    ensures var done, p := Remaining(all[..seen], handle), |Remaining(all[..seen], handle)|;
            && p < |chans| && chans[p] == all[seen]
            && Remaining(all[..seen + 1], handle) == (if all[seen].handle == handle then done else done + [all[seen]])
            && Without(chans, p) == done + all[seen + 1..]
            && chans == (done + [all[seen]]) + all[seen + 1..]
  {
    assert all[..seen + 1][..seen] == all[..seen];
    WalkSplit(Remaining(all[..seen], handle), all, seen, chans);
  }

  lemma WalkSplit(done: seq<Channel>, all: seq<Channel>, seen: nat, chans: seq<Channel>)
    requires seen < |all| && chans == done + all[seen..]
    ensures |done| < |chans| && chans[|done|] == all[seen]
    ensures Without(chans, |done|) == done + all[seen + 1..]
    ensures chans == (done + [all[seen]]) + all[seen + 1..]
  {
  }

  lemma ReleasedStep(g: Global, c: Conn, all: seq<Channel>, seen: nat, handle: Word)
    requires |g.refs| == PROFILES == |c.refs| && Known(all) && seen < |all|
    ensures Known(all[..seen]) && Known(all[..seen + 1])
    ensures var r := ReleasedAll(g, c, all[..seen], handle);
            ReleasedAll(g, c, all[..seen + 1], handle)
            == if all[seen].handle == handle then ReleasedOne(r.g, r.c, all[seen]) else r
  {
    assert all[..seen + 1][..seen] == all[..seen];
  }
}
