/**
 The coexistence snooper as a machine on values: its state, its events, and what each event makes of the state.
 CoexProfiles does the same step by step.
 */
module CoexMachine {

  import opened Octets
  import opened CoexState

  datatype Event =
    | ConnReq(handle: Word, psm: Word, scid: Word, out: bool, allocates: bool, noise: Byte)
    | ConnRsp(handle: Word, dcid: Word, scid: Word, out: bool, result: Word)
    | DisconnReq(handle: Word, dcid: Word, scid: Word, out: bool)
    | Packet(handle: Word, scid: Word, out: bool)
    | Connected(handle: Word, ok: bool, sco: bool, allocates: bool, stale: set<nat>)
    | LeConnected(handle: Word, ok: bool, interval: Word, allocates: bool, stale: set<nat>)
    | ModeChange(handle: Word, interval: Word)
    | Disconnected(handle: Word, ok: bool)
    | A2dpTimeout(handle: Word, packets: nat)
    | PanTimeout(handle: Word, packets: nat)

  datatype State = State(g: Global, conns: seq<Conn>, chans: seq<Channel>)

  predicate Shape(s: State) {
    |s.g.refs| == PROFILES && Known(s.chans) && forall c :: c in s.conns ==> |c.refs| == PROFILES
  }

  // ------------------------------------------------------ L2CAP channels

  const PSM_AVDTP: Word := 0x0019

  /** The record of a requested channel. */
  function Opened(chans: seq<Channel>, handle: Word, psm: Word, scid: Word, out: bool, noise: Byte): Channel {
    var flags := if psm != PSM_AVDTP then noise
                 else if ByPsm(chans, handle, psm) < |chans| then A2DP_MEDIA else A2DP_SIGNAL;
    Channel(handle, psm, if out then 0 else scid, if out then scid else 0, ProfileOf(psm), flags)
  }

  /** The channel a response or packet is about. */
  function Answered(chans: seq<Channel>, handle: Word, scid: Word, out: bool): nat {
    if out then ByDcid(chans, handle, scid) else ByScid(chans, handle, scid)
  }

  function Completed(c: Channel, dcid: Word, out: bool): Channel {
    if out then c.(scid := dcid) else c.(dcid := dcid)
  }

  /** The link has a channel with this identifier, ours for a request we send. */
  ghost predicate Taken(chans: seq<Channel>, handle: Word, scid: Word, out: bool) {
    exists k :: 0 <= k < |chans| && chans[k].handle == handle % 4096
                && (if out then chans[k].scid else chans[k].dcid) == scid
  }

  /** The link has an AVDTP channel already: the first is for signalling, later ones for media. */
  ghost predicate HasMedia(chans: seq<Channel>, handle: Word) {
    exists k :: 0 <= k < |chans| && chans[k].handle % 4096 == handle % 4096 && chans[k].psm == 0x0019
  }

  lemma OpenedFields(chans: seq<Channel>, handle: Word, psm: Word, scid: Word, out: bool, noise: Byte)
    ensures var known := if out then ByScid(chans, handle, scid) else ByDcid(chans, handle, scid);
            known < |chans| <==> Taken(chans, handle, scid, out)
    ensures var x := Opened(chans, handle, psm, scid, out, noise);
            && x.handle == handle && x.psm == psm
            && (psm !in {0x0001, 0x0017} ==>
                  x.index == if psm in {0x0011, 0x0013} then HID else if psm == 0x0019 then A2DP else PAN)
            && (if out then x.scid == scid && x.dcid == 0 else x.dcid == scid && x.scid == 0)
            && x.flags == if psm != 0x0019 then noise else if HasMedia(chans, handle) then 2 else 1
  {
  }

  function Requested(s: State, handle: Word, psm: Word, scid: Word, out: bool, allocates: bool, noise: Byte): (t: State)
    requires Shape(s)
    ensures Shape(t)
  {
    var known := if out then ByScid(s.chans, handle, scid) else ByDcid(s.chans, handle, scid);
    if ProfileOf(psm) == IGNORED || known < |s.chans| || !allocates then s
    else s.(chans := s.chans + [Opened(s.chans, handle, psm, scid, out, noise)])
  }

  function Granted(s: State, handle: Word, dcid: Word, scid: Word, out: bool, result: Word): (t: State)
    requires Shape(s)
    ensures Shape(t)
  {
    var x, k := Answered(s.chans, handle, scid, out), ConnAt(s.conns, handle);
    if x == |s.chans| || result % 256 != 0 then s
    else
      var i, t := s.chans[x].index, s.(chans := s.chans[x := Completed(s.chans[x], dcid, out)]);
      assert s.chans[x] in s.chans;
      if k == |s.conns| then t else t.(g := Gained(s.g, i), conns := s.conns[k := ConnGained(s.conns[k], i)])
  }

  function Closing(s: State, handle: Word, dcid: Word, scid: Word, out: bool): (t: State)
    requires Shape(s)
    ensures Shape(t)
  {
    var x := if out then ByBoth(s.chans, handle, dcid, scid) else ByBoth(s.chans, handle, scid, dcid);
    var k := ConnAt(s.conns, handle);
    if x == |s.chans| || k == |s.conns| then s
    else
      assert s.chans[x] in s.chans;
      var r := Closed(s.g, s.conns[k], s.chans[x].index);
      State(r.g, s.conns[k := r.c], Without(s.chans, x))
  }

  function Passing(s: State, handle: Word, scid: Word, out: bool): (t: State)
    requires Shape(s)
    ensures Shape(t)
  {
    var k, x := ConnAt(s.conns, handle), Answered(s.chans, handle, scid, out);
    if k < |s.conns| && s.conns[k].kind == 0 && x < |s.chans|
       && s.chans[x].index == A2DP && s.chans[x].flags == A2DP_MEDIA && A2DP !in s.conns[k].status
    then
      var r := Heard(s.g, s.conns[k], out);
      s.(g := r.g, conns := s.conns[k := r.c])
    else s
  }

  // ---------------------------------------------------------------- links

  /** A link comes up: its record is found or made, and an SCO or LE link brings a user of profile i. */
  function Linked(s: State, handle: Word, kind: nat, i: nat, stale: set<nat>): (t: State)
    requires Shape(s) && i <= PROFILES
    ensures Shape(t) && t.chans == s.chans
  {
    var k, e := ConnAt(s.conns, handle), Entered(s.conns, handle, kind, stale);
    if i == PROFILES then s.(conns := e)
    else s.(g := Gained(s.g, i), conns := e[k := ConnGained(e[k], i)])
  }

  /** There is a record for the link, or one can be made. */
  predicate Enters(s: State, handle: Word, ok: bool, allocates: bool) {
    ok && (allocates || ConnAt(s.conns, handle) < |s.conns|)
  }

  function Unlinked(s: State, handle: Word, ok: bool): (t: State)
    requires Shape(s)
    ensures Shape(t)
  {
    var k := ConnAt(s.conns, handle);
    if !ok || k == |s.conns| then s
    else if s.conns[k].kind == 0 then
      RemainingIs(s.chans, handle);
      State(ReleasedAll(s.g, s.conns[k], s.chans, handle).g, Without(s.conns, k), Remaining(s.chans, handle))
    else
      s.(g := if s.conns[k].kind == 1 then Lost(s.g, SCO) else if s.conns[k].kind == 2 then Lost(s.g, HID) else s.g,
         conns := Without(s.conns, k))
  }

  // --------------------------------------------------------------- timers

  function Silenced(s: State, handle: Word, packets: nat): (t: State)
    requires Shape(s)
    ensures Shape(t)
  {
    var k := ConnAt(s.conns, handle);
    if k < |s.conns| && packets == 0 && A2DP in s.conns[k].status then
      var c := StateSet(s.conns[k], s.g, A2DP, false);
      s.(conns := s.conns[k := StateSet(c, s.g, SINK, false)])
    else s
  }

  function Networked(s: State, handle: Word, packets: nat): (t: State)
    requires Shape(s)
    ensures Shape(t)
  {
    var k := ConnAt(s.conns, handle);
    if k < |s.conns| then s.(conns := s.conns[k := StateSet(s.conns[k], s.g, PAN, packets >= 5)]) else s
  }

  // ----------------------------------------------------------------- runs

  function After(s: State, e: Event): (t: State)
    requires Shape(s)
    ensures Shape(t)
  {
    match e
    case ConnReq(handle, psm, scid, out, allocates, noise) => Requested(s, handle, psm, scid, out, allocates, noise)
    case ConnRsp(handle, dcid, scid, out, result) => Granted(s, handle, dcid, scid, out, result)
    case DisconnReq(handle, dcid, scid, out) => Closing(s, handle, dcid, scid, out)
    case Packet(handle, scid, out) => Passing(s, handle, scid, out)
    case Connected(handle, ok, sco, allocates, stale) =>
      if !Enters(s, handle, ok, allocates) then s
      else if sco then Linked(s, handle, 1, SCO, stale) else Linked(s, handle, 0, PROFILES, stale)
    case LeConnected(handle, ok, interval, allocates, stale) =>
      if !Enters(s, handle, ok, allocates) then s
      else
        var t := Linked(s, handle, 2, HID, stale);
        t.(conns := IntervalAt(t.conns, handle, interval))
    case ModeChange(handle, interval) => s.(conns := IntervalAt(s.conns, handle, interval))
    case Disconnected(handle, ok) => Unlinked(s, handle, ok)
    case A2dpTimeout(handle, packets) => Silenced(s, handle, packets)
    case PanTimeout(handle, packets) => Networked(s, handle, packets)
  }

  /** A run of events. */
  function AfterAll(s: State, es: seq<Event>): (t: State)
    requires Shape(s)
    ensures Shape(t)
    decreases |es|
  {
    if es == [] then s else After(AfterAll(s, es[..|es| - 1]), es[|es| - 1])
  }

  lemma OneMore(s: State, es: seq<Event>, n: nat)
    requires Shape(s) && n < |es|
    ensures AfterAll(s, es[..n + 1]) == After(AfterAll(s, es[..n]), es[n])
  {
    assert es[..n + 1][..n] == es[..n];
  }
}
