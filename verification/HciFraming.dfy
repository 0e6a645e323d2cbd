/**
 HCI packet framing: what a byte stream from the controller means.

 A packet is a header followed by as many octets as the header announces
 (section 5.4 of Vol 4 Part E of the Bluetooth Core Specification). `Parse`
 reads a stream packet by packet, with no notion of how the bytes arrived; the
 receivers of the driver, which see the stream in arbitrary pieces, are proved
 against it in HciReceivers.
 */
module HciFraming {

  import opened Octets

  datatype Kind = Event | Acl | Sco

  function HeaderSize(k: Kind): nat {
    match k
    case Event => 2
    case Acl => 4
    case Sco => 3
  }

  /** The payload length a complete header announces. */
  function Announced(k: Kind, header: seq<Byte>): nat
    requires |header| >= HeaderSize(k)
  {
    match k
    case Event => header[1]
    case Acl => header[2] as int + 256 * (header[3] as int)
    case Sco => header[2]
  }

  const HCI_MAX_EVENT_SIZE: nat := 260

  /** How a call to a receiver ends: normally, out of memory, or at a header that cannot be right. */
  datatype Outcome = Ok | NoMemory | IllegalSequence

  datatype Parsed = Parsed(frames: seq<seq<Byte>>, rest: seq<Byte>, outcome: Outcome)

  /** The header in s, if complete, announces a packet that exceeds the buffer of `room` octets. */
  predicate Oversize(k: Kind, room: nat, s: seq<Byte>) {
    |s| >= HeaderSize(k) && HeaderSize(k) + Announced(k, s) > room
  }

  /** s ends before the packet that starts it does. */
  predicate Incomplete(k: Kind, s: seq<Byte>) {
    |s| < HeaderSize(k) || |s| < HeaderSize(k) + Announced(k, s)
  }

  /** f is one packet: a header and exactly what it announces. */
  predicate Exact(k: Kind, room: nat, f: seq<Byte>) {
    |f| >= HeaderSize(k) && |f| == HeaderSize(k) + Announced(k, f) <= room
  }

  /** Reads s packet by packet, with buffers of `room` octets of which `allocs` can be had. */
  function Parse(k: Kind, room: nat, allocs: nat, s: seq<Byte>): (p: Parsed)
    decreases |s|
  {
    if s == [] then Parsed([], [], Ok)
    else if allocs == 0 then Parsed([], [], NoMemory)
    else if Oversize(k, room, s) then Parsed([], [], IllegalSequence)
    else if Incomplete(k, s) then Parsed([], s, Ok)
    else
      var n := HeaderSize(k) + Announced(k, s);
      var p := Parse(k, room, allocs - 1, s[n..]);
      p.(frames := [s[..n]] + p.frames)
  }

  /** Memory never runs out: one buffer per octet is always enough. */
  function ParseAll(k: Kind, room: nat, s: seq<Byte>): Parsed {
    Parse(k, room, |s|, s)
  }

  /** The length of the packet that starts s. */
  function PacketSize(k: Kind, s: seq<Byte>): (n: nat)
    requires !Incomplete(k, s)
    ensures 0 < n <= |s|
  {
    HeaderSize(k) + Announced(k, s)
  }

  /** More bytes behind a packet do not change where it ends. */
  lemma PacketSizeStable(k: Kind, room: nat, s: seq<Byte>, t: seq<Byte>)
    requires !Incomplete(k, s)
    ensures !Incomplete(k, s + t) && PacketSize(k, s + t) == PacketSize(k, s)
    ensures Oversize(k, room, s + t) == Oversize(k, room, s)
    ensures (s + t)[..PacketSize(k, s)] == s[..PacketSize(k, s)]
    ensures (s + t)[PacketSize(k, s)..] == s[PacketSize(k, s)..] + t
  {
  }

  /** Reading the packet at the front takes one buffer. */
  lemma ParseStep(k: Kind, room: nat, allocs: nat, s: seq<Byte>)
    requires !Incomplete(k, s) && !Oversize(k, room, s) && allocs > 0
    ensures var n := PacketSize(k, s);
            var q := Parse(k, room, allocs - 1, s[n..]);
            Parse(k, room, allocs, s) == Parsed([s[..n]] + q.frames, q.rest, q.outcome)
  {
  }

  lemma {:induction false} EnoughMemory(k: Kind, room: nat, allocs: nat, s: seq<Byte>)
    requires allocs >= |s|
    ensures Parse(k, room, allocs, s) == ParseAll(k, room, s)
    ensures ParseAll(k, room, s).outcome != NoMemory
    decreases |s|
  {
    if s != [] && !Oversize(k, room, s) && !Incomplete(k, s) {
      var rest := s[PacketSize(k, s)..];
      ParseStep(k, room, allocs, s);
      ParseStep(k, room, |s|, s);
      EnoughMemory(k, room, allocs - 1, rest);
      EnoughMemory(k, room, |s| - 1, rest);
    }
  }

  /** Taking one packet off the front. */
  lemma ParseOne(k: Kind, room: nat, s: seq<Byte>)
    requires !Incomplete(k, s) && !Oversize(k, room, s)
    ensures var n := PacketSize(k, s);
            var q := ParseAll(k, room, s[n..]);
            ParseAll(k, room, s) == Parsed([s[..n]] + q.frames, q.rest, q.outcome)
  {
    ParseStep(k, room, |s|, s);
    EnoughMemory(k, room, |s| - 1, s[PacketSize(k, s)..]);
  }

  /** A whole packet at the front is read first, whatever follows. */
  lemma ParseFront(k: Kind, room: nat, allocs: nat, f: seq<Byte>, t: seq<Byte>)
    requires Exact(k, room, f) && allocs > 0
    ensures var q := Parse(k, room, allocs - 1, t);
            Parse(k, room, allocs, f + t) == q.(frames := [f] + q.frames)
  {
  }

  /** An oversize header at the front ends the reading, whatever follows. */
  lemma ParseOversize(k: Kind, room: nat, allocs: nat, h: seq<Byte>, t: seq<Byte>)
    requires Oversize(k, room, h) && allocs > 0
    ensures Parse(k, room, allocs, h + t) == Parsed([], [], IllegalSequence)
  {
  }

  function Concat(fs: seq<seq<Byte>>): seq<Byte> {
    if fs == [] then [] else fs[0] + Concat(fs[1..])
  }

  /** A partial packet as a receiver may hold it. */
  predicate Pending(k: Kind, room: nat, partial: seq<Byte>) {
    partial == [] || (Incomplete(k, partial) && !Oversize(k, room, partial))
  }

  /** A reading of s as whole packets and a remainder. */
  ghost predicate Cuts(k: Kind, room: nat, s: seq<Byte>, frames: seq<seq<Byte>>, rest: seq<Byte>) {
    && Concat(frames) + rest == s
    && (forall f :: f in frames ==> Exact(k, room, f))
    && Pending(k, room, rest)
  }

  lemma CutsCons(k: Kind, room: nat, s: seq<Byte>, n: nat, frames: seq<seq<Byte>>, rest: seq<Byte>)
    requires n <= |s| && Exact(k, room, s[..n]) && Cuts(k, room, s[n..], frames, rest)
    ensures Cuts(k, room, s, [s[..n]] + frames, rest)
  {
  }

  /** Nothing is lost, added or reordered: packets and remainder are the stream, cut at packet ends. */
  lemma {:induction false} ParseIsExact(k: Kind, room: nat, s: seq<Byte>)
    requires ParseAll(k, room, s).outcome == Ok
    ensures var p := ParseAll(k, room, s); Cuts(k, room, s, p.frames, p.rest)
    decreases |s|
  {
    var p := ParseAll(k, room, s);
    if s == [] || Incomplete(k, s) {
      assert Concat(p.frames) + p.rest == s;
    } else {
      var n := PacketSize(k, s);
      ParseOne(k, room, s);
      ParseIsExact(k, room, s[n..]);
      var q := ParseAll(k, room, s[n..]);
      CutsCons(k, room, s, n, q.frames, q.rest);
    }
  }

  lemma CutsFront(k: Kind, room: nat, s: seq<Byte>, frames: seq<seq<Byte>>, rest: seq<Byte>)
    requires Cuts(k, room, s, frames, rest) && frames != []
    ensures var t := Concat(frames[1..]) + rest;
            s == frames[0] + t && Exact(k, room, frames[0]) && Cuts(k, room, t, frames[1..], rest)
  {
  }

  /** The cut is the only one: any reading of s as packets and a remainder is the one Parse finds. */
  lemma {:induction false} ParseIsUnique(k: Kind, room: nat, s: seq<Byte>, frames: seq<seq<Byte>>, rest: seq<Byte>)
    requires Cuts(k, room, s, frames, rest)
    ensures ParseAll(k, room, s) == Parsed(frames, rest, Ok)
    decreases |frames|
  {
    if frames == [] {
      assert s == rest;
    } else {
      var f, t := frames[0], Concat(frames[1..]) + rest;
      CutsFront(k, room, s, frames, rest);
      ParseIsUnique(k, room, t, frames[1..], rest);
      ParseFrontAll(k, room, f, t);
      assert frames == [f] + frames[1..];
    }
  }

  lemma ParseFrontAll(k: Kind, room: nat, f: seq<Byte>, t: seq<Byte>)
    requires Exact(k, room, f)
    ensures var q := ParseAll(k, room, t);
            ParseAll(k, room, f + t) == Parsed([f] + q.frames, q.rest, q.outcome)
  {
    ParseFront(k, room, |f + t|, f, t);
    EnoughMemory(k, room, |f + t| - 1, t);
  }

  /** Reading s and then t is reading s + t, as long as s is good. */
  lemma {:induction false} ParseSplit(k: Kind, room: nat, s: seq<Byte>, t: seq<Byte>)
    requires ParseAll(k, room, s).outcome == Ok
    ensures var p := ParseAll(k, room, s);
            var q := ParseAll(k, room, p.rest + t);
            ParseAll(k, room, s + t) == Parsed(p.frames + q.frames, q.rest, q.outcome)
    decreases |s|
  {
    if s == [] || Incomplete(k, s) {
      assert ParseAll(k, room, s) == Parsed([], s, Ok);
    } else {
      var n := PacketSize(k, s);
      ParseOne(k, room, s);
      PacketSizeStable(k, room, s, t);
      ParseOne(k, room, s + t);
      ParseSplit(k, room, s[n..], t);
      var p := ParseAll(k, room, s[n..]);
      Regroup(s[..n], p.frames, ParseAll(k, room, p.rest + t).frames);
    }
  }

  lemma Regroup(f: seq<Byte>, p: seq<seq<Byte>>, q: seq<seq<Byte>>)
    ensures ([f] + p) + q == [f] + (p + q)
  {
  }

  /** If s + t is good then so is s. */
  lemma {:induction false} PrefixIsGood(k: Kind, room: nat, s: seq<Byte>, t: seq<Byte>)
    requires ParseAll(k, room, s + t).outcome == Ok
    ensures ParseAll(k, room, s).outcome == Ok
    decreases |s|
  {
    if |s| >= HeaderSize(k) {
      assert Announced(k, s + t) == Announced(k, s);
      assert Oversize(k, room, s) ==> Oversize(k, room, s + t);
      if !Incomplete(k, s) {
        PacketSizeStable(k, room, s, t);
        ParseOne(k, room, s + t);
        PrefixIsGood(k, room, s[PacketSize(k, s)..], t);
        ParseOne(k, room, s);
      }
    }
  }

  // ------------------------------------------------------------- arrival in pieces

  /** What one receiver call does, given the partial packet kept from the call before. */
  function Received(k: Kind, room: nat, partial: seq<Byte>, buffer: seq<Byte>): Parsed {
    ParseAll(k, room, partial + buffer)
  }

  /** A run of receiver calls; a bad header drops its buffer and the next call starts afresh. */
  function ReceivedAll(k: Kind, room: nat, partial: seq<Byte>, buffers: seq<seq<Byte>>): (p: Parsed)
    decreases |buffers|
  {
    if buffers == [] then Parsed([], partial, Ok)
    else
      var p := Received(k, room, partial, buffers[0]);
      var q := ReceivedAll(k, room, p.rest, buffers[1..]);
      Parsed(p.frames + q.frames, q.rest, if p.outcome == Ok then q.outcome else p.outcome)
  }

  lemma {:induction false} PiecesAgree(k: Kind, room: nat, partial: seq<Byte>, buffers: seq<seq<Byte>>)
    requires Pending(k, room, partial)
    ensures var whole := ParseAll(k, room, partial + Concat(buffers));
            var pieces := ReceivedAll(k, room, partial, buffers);
            && (whole.outcome == Ok <==> pieces.outcome == Ok)
            && (whole.outcome == Ok ==> pieces == whole)
    decreases |buffers|
  {
    if buffers == [] {
      assert partial + Concat(buffers) == partial;
    } else {
      var s, t := partial + buffers[0], Concat(buffers[1..]);
      assert partial + Concat(buffers) == s + t;
      var p := ParseAll(k, room, s);
      if p.outcome == Ok {
        ParseIsExact(k, room, s);
        ParseSplit(k, room, s, t);
        PiecesAgree(k, room, p.rest, buffers[1..]);
      } else if ParseAll(k, room, s + t).outcome == Ok {
        PrefixIsGood(k, room, s, t);
      }
    }
  }

  /**
   Chunking does not matter: however a stream with no oversize header is cut into buffers, the same
   packets come out and the same partial packet is left, namely the ones of the stream as a whole.
   */
  lemma ChunkingIrrelevant(k: Kind, room: nat, one: seq<seq<Byte>>, other: seq<seq<Byte>>)
    requires Concat(one) == Concat(other)
    requires ParseAll(k, room, Concat(one)).outcome == Ok
    ensures ReceivedAll(k, room, [], one) == ReceivedAll(k, room, [], other) == ParseAll(k, room, Concat(one))
  {
    assert [] + Concat(one) == Concat(one);
    PiecesAgree(k, room, [], one);
    PiecesAgree(k, room, [], other);
  }

  /** Events always fit: an event's length is one octet, so the error path is never taken for them. */
  lemma {:induction false} EventsAlwaysFit(s: seq<Byte>)
    ensures ParseAll(Event, HCI_MAX_EVENT_SIZE, s).outcome == Ok
    decreases |s|
  {
    if s != [] && !Incomplete(Event, s) {
      ParseOne(Event, HCI_MAX_EVENT_SIZE, s);
      EventsAlwaysFit(s[PacketSize(Event, s)..]);
    }
  }

  // ------------------------------------------------------------- oversize headers

  /** The octets behind the first oversize header; the buffer it arrives in loses as many of them as it holds. */
  function Behind(k: Kind, room: nat, s: seq<Byte>): (n: nat)
    ensures n <= |s|
    decreases |s|
  {
    if Oversize(k, room, s) then |s| - HeaderSize(k)
    else if Incomplete(k, s) then 0
    else Behind(k, room, s[PacketSize(k, s)..])
  }

  /** However s is cut into buffers, the same comes out and the same is left. */
  ghost predicate CutsAgree(k: Kind, room: nat, s: seq<Byte>) {
    forall one, other :: Concat(one) == s && Concat(other) == s ==>
      ReceivedAll(k, room, [], one) == ReceivedAll(k, room, [], other)
  }

  lemma {:induction false} BehindSplit(k: Kind, room: nat, s: seq<Byte>, t: seq<Byte>)
    requires ParseAll(k, room, s).outcome == Ok
    ensures Behind(k, room, s + t) == Behind(k, room, ParseAll(k, room, s).rest + t)
    decreases |s|
  {
    if s == [] || Incomplete(k, s) {
      assert ParseAll(k, room, s).rest == s;
    } else {
      ParseOne(k, room, s);
      PacketSizeStable(k, room, s, t);
      BehindSplit(k, room, s[PacketSize(k, s)..], t);
    }
  }

  /** A bad stream stays bad, and leaves nothing; whatever follows it counts as behind. */
  lemma {:induction false} BehindGrows(k: Kind, room: nat, s: seq<Byte>, t: seq<Byte>)
    requires ParseAll(k, room, s).outcome != Ok
    ensures ParseAll(k, room, s).rest == [] && Behind(k, room, s + t) == Behind(k, room, s) + |t|
    ensures ParseAll(k, room, s + t) == ParseAll(k, room, s)
    decreases |s|
  {
    if Oversize(k, room, s) {
      ParseOversize(k, room, |s|, s, []);
      assert s + [] == s;
      ParseOversize(k, room, |s + t|, s, t);
    } else {
      ParseOne(k, room, s);
      PacketSizeStable(k, room, s, t);
      ParseOne(k, room, s + t);
      BehindGrows(k, room, s[PacketSize(k, s)..], t);
    }
  }

  lemma {:induction false} NothingBehind(k: Kind, room: nat, partial: seq<Byte>, buffers: seq<seq<Byte>>)
    requires Pending(k, room, partial) && Behind(k, room, partial + Concat(buffers)) == 0
    ensures ReceivedAll(k, room, partial, buffers) == ParseAll(k, room, partial + Concat(buffers))
    decreases |buffers|
  {
    if buffers == [] {
      assert partial + Concat(buffers) == partial;
    } else {
      var s, t := partial + buffers[0], Concat(buffers[1..]);
      assert partial + Concat(buffers) == s + t;
      var p := ParseAll(k, room, s);
      if p.outcome == Ok {
        ParseIsExact(k, room, s);
        ParseSplit(k, room, s, t);
        BehindSplit(k, room, s, t);
        NothingBehind(k, room, p.rest, buffers[1..]);
      } else {
        BehindGrows(k, room, s, t);
        assert [] + t == [];
        NothingBehind(k, room, [], buffers[1..]);
      }
    }
  }

  /** With something behind a bad header, the stream is still bad without its last octet. */
  lemma {:induction false} WithoutLast(k: Kind, room: nat, s: seq<Byte>)
    requires Behind(k, room, s) > 0
    ensures ParseAll(k, room, s[..|s| - 1]).outcome != Ok
    decreases |s|
  {
    var t := s[..|s| - 1];
    if Oversize(k, room, s) {
      assert Oversize(k, room, t);
    } else {
      var n := PacketSize(k, s);
      WithoutLast(k, room, s[n..]);
      assert t[n..] == s[n..][..|s[n..]| - 1];
      ParseOne(k, room, t);
    }
  }

  /** Then the last octet is lost or left over, depending on whether it comes in a buffer of its own. */
  lemma LastOctetDiffers(k: Kind, room: nat, s: seq<Byte>)
    requires Behind(k, room, s) > 0
    ensures var t, last := s[..|s| - 1], s[|s| - 1..];
            && Concat([s]) == s == Concat([t, last])
            && ReceivedAll(k, room, [], [s]).rest == [] && ReceivedAll(k, room, [], [t, last]).rest == last != []
  {
    var t, last := s[..|s| - 1], s[|s| - 1..];
    var lone := [last];
    assert t + last == s && [s][1..] == [] && [t, last][1..] == lone && lone[1..] == [];
    assert Concat(lone) == last;
    WithoutLast(k, room, s);
    BehindGrows(k, room, t, last);
    assert [] + t == t && [] + s == s && [] + last == last;
    assert Incomplete(k, last) && ParseAll(k, room, last).rest == last;
    assert ReceivedAll(k, room, [], lone).rest == last;
  }

  /** Chunking does not matter for a stream exactly if nothing stands behind its first oversize header. */
  lemma CutsAgreeIff(k: Kind, room: nat, s: seq<Byte>)
    ensures CutsAgree(k, room, s) <==> Behind(k, room, s) == 0
  {
    if Behind(k, room, s) == 0 {
      forall one, other | Concat(one) == s && Concat(other) == s
        ensures ReceivedAll(k, room, [], one) == ReceivedAll(k, room, [], other)
      {
        assert [] + s == s;
        NothingBehind(k, room, [], one);
        NothingBehind(k, room, [], other);
      }
    } else {
      LastOctetDiffers(k, room, s);
    }
  }

  /** The longest payload a header can announce. */
  function MaxPayload(k: Kind): nat {
    if k == Acl then 0xFFFF else 0xFF
  }

  lemma {:induction false} RoomForAll(k: Kind, room: nat, s: seq<Byte>)
    requires room >= HeaderSize(k) + MaxPayload(k)
    ensures Behind(k, room, s) == 0
    decreases |s|
  {
    if !Incomplete(k, s) {
      RoomForAll(k, room, s[PacketSize(k, s)..]);
    }
  }

  /**
   Chunking never matters exactly for a receiver whose buffers hold the longest packet. Event
   buffers do; an ACL buffer of fewer than 65539 octets does not.
   */
  lemma ChunkingNeverMattersIff(k: Kind, room: nat)
    ensures (forall s :: CutsAgree(k, room, s)) <==> room >= HeaderSize(k) + MaxPayload(k)
  {
    if room >= HeaderSize(k) + MaxPayload(k) {
      forall s ensures CutsAgree(k, room, s) {
        RoomForAll(k, room, s);
        CutsAgreeIff(k, room, s);
      }
    } else {
      var s: seq<Byte> := match k
        case Event => [0, 255, 0]
        case Acl => [0, 0, 255, 255, 0]
        case Sco => [0, 0, 255, 0];
      assert Oversize(k, room, s) && Behind(k, room, s) == 1;
      CutsAgreeIff(k, room, s);
    }
  }

  /** A whole packet behind an oversize header is lost when it shares the buffer and delivered when it does not. */
  lemma OversizeDependsOnChunking(k: Kind, room: nat, bad: seq<Byte>, good: seq<Byte>)
    requires |bad| == HeaderSize(k) && Oversize(k, room, bad) && Exact(k, room, good)
    ensures ReceivedAll(k, room, [], [bad + good]).frames == []
    ensures ReceivedAll(k, room, [], [bad, good]).frames == [good]
  {
    assert [] + bad == bad && [] + (bad + good) == bad + good && [] + good == good && good + [] == good;
    ParseOversize(k, room, |bad + good|, bad, good);
    ParseOversize(k, room, |bad|, bad, []);
    assert bad + [] == bad;
    ParseFront(k, room, |good|, good, []);
    assert [bad, good][1..] == [good] && [good][1..] == [] && [bad + good][1..] == [];
    assert ReceivedAll(k, room, [], [good]).frames == [good];
  }
}
