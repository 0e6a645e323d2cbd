/**
 HCI packets octet by octet, as a controller sends them (sections 5.4.2 to
 5.4.4 of Vol 4 Part E of the Bluetooth Core Specification), and the round trip:
 what is sent packet by packet is read packet by packet.
 */
module HciPackets {

  import opened HciFraming
  import opened Octets

  /** A packet: the one or two octets in front of the length (event code, or handle and flags), and the payload. */
  datatype Packet = Packet(front: seq<Byte>, payload: seq<Byte>)

  /** The packet has the front its kind asks for, and its length can be announced. */
  predicate Sendable(k: Kind, p: Packet) {
    match k
    case Event => |p.front| == 1 && |p.payload| < 256
    case Acl => |p.front| == 2 && |p.payload| < 0x1_0000
    case Sco => |p.front| == 2 && |p.payload| < 256
  }

  /** Its octets. The length is one octet, or two octets with the low one first for ACL data. */
  function Encoded(k: Kind, p: Packet): (b: seq<Byte>)
    requires Sendable(k, p)
    ensures |b| == |p.front| + (if k == Acl then 2 else 1) + |p.payload|
  {
    p.front + (if k == Acl then [|p.payload| % 256, |p.payload| / 256] else [|p.payload|]) + p.payload
  }

  function Frames(k: Kind, ps: seq<Packet>): seq<seq<Byte>>
    requires forall p :: p in ps ==> Sendable(k, p)
    decreases |ps|
  {
    if ps == [] then [] else [Encoded(k, ps[0])] + Frames(k, ps[1..])
  }

  /** Every packet can be sent and fits a buffer of `room` octets. */
  predicate AllFit(k: Kind, room: nat, ps: seq<Packet>) {
    forall p :: p in ps ==> Sendable(k, p) && |Encoded(k, p)| <= room
  }

  lemma OnePacket(k: Kind, room: nat, p: Packet)
    requires Sendable(k, p)
    ensures |Encoded(k, p)| <= room ==> Exact(k, room, Encoded(k, p))
    ensures |Encoded(k, p)| > room ==> Oversize(k, room, Encoded(k, p))
  {
  }

  lemma FrontOfPacket(k: Kind, room: nat, p: Packet, n: nat)
    requires Sendable(k, p) && |Encoded(k, p)| <= room && n < |Encoded(k, p)|
    ensures Pending(k, room, Encoded(k, p)[..n])
  {
    OnePacket(k, room, p);
  }

  /** Packets and the beginning of another one are a cut of the stream. */
  lemma {:induction false} SentCuts(k: Kind, room: nat, ps: seq<Packet>, rest: seq<Byte>)
    requires AllFit(k, room, ps) && Pending(k, room, rest)
    ensures Cuts(k, room, Concat(Frames(k, ps)) + rest, Frames(k, ps), rest)
    decreases |ps|
  {
    if ps != [] {
      assert ps[0] in ps && forall p :: p in ps[1..] ==> p in ps;
      SentCuts(k, room, ps[1..], rest);
      OnePacket(k, room, ps[0]);
      var f, fs := Encoded(k, ps[0]), Frames(k, ps[1..]);
      assert ([f] + fs)[1..] == fs;
    }
  }

  /** Round trip: of any packets that fit, all are delivered as they were sent, and nothing is left. */
  lemma SentIsReceived(k: Kind, room: nat, ps: seq<Packet>)
    requires AllFit(k, room, ps)
    ensures ParseAll(k, room, Concat(Frames(k, ps))) == Parsed(Frames(k, ps), [], Ok)
  {
    SentCuts(k, room, ps, []);
    assert Concat(Frames(k, ps)) + [] == Concat(Frames(k, ps));
    ParseIsUnique(k, room, Concat(Frames(k, ps)), Frames(k, ps), []);
  }

  /** The same however the octets are cut into buffers, and with the beginning of a further packet kept. */
  lemma SentIsReceivedInPieces(k: Kind, room: nat, ps: seq<Packet>, next: Packet, n: nat, buffers: seq<seq<Byte>>)
    requires AllFit(k, room, ps + [next]) && n < |Encoded(k, next)|
    requires Concat(buffers) == Concat(Frames(k, ps)) + Encoded(k, next)[..n]
    ensures ReceivedAll(k, room, [], buffers) == Parsed(Frames(k, ps), Encoded(k, next)[..n], Ok)
  {
    assert next in ps + [next] && forall p :: p in ps ==> p in ps + [next];
    var rest := Encoded(k, next)[..n];
    FrontOfPacket(k, room, next, n);
    SentCuts(k, room, ps, rest);
    ParseIsUnique(k, room, Concat(Frames(k, ps)) + rest, Frames(k, ps), rest);
    ChunkingIrrelevant(k, room, buffers, [Concat(buffers)]);
  }

  /** With fewer buffers than packets, as many packets are delivered as there are buffers, and nothing is kept. */
  lemma {:induction false} OutOfMemory(k: Kind, room: nat, allocs: nat, ps: seq<Packet>)
    requires AllFit(k, room, ps) && allocs < |ps|
    ensures |Frames(k, ps)| == |ps|
    ensures Parse(k, room, allocs, Concat(Frames(k, ps))) == Parsed(Frames(k, ps)[..allocs], [], NoMemory)
    decreases |ps|
  {
    var p, rest := ps[0], ps[1..];
    FirstFits(k, room, ps);
    FramesMany(k, ps);
    if allocs > 0 {
      OutOfMemory(k, room, allocs - 1, rest);
      ParseFront(k, room, allocs, Encoded(k, p), Concat(Frames(k, rest)));
      TakeFront(Encoded(k, p), Frames(k, rest), allocs);
    }
  }

  lemma FirstFits(k: Kind, room: nat, ps: seq<Packet>)
    requires AllFit(k, room, ps) && ps != []
    ensures AllFit(k, room, ps[1..]) && Exact(k, room, Encoded(k, ps[0]))
    ensures Frames(k, ps) == [Encoded(k, ps[0])] + Frames(k, ps[1..])
    ensures Concat(Frames(k, ps)) == Encoded(k, ps[0]) + Concat(Frames(k, ps[1..])) != []
  {
    assert ps[0] in ps && forall q :: q in ps[1..] ==> q in ps;
    OnePacket(k, room, ps[0]);
    var f, fs := Encoded(k, ps[0]), Frames(k, ps[1..]);
    assert ([f] + fs)[1..] == fs;
  }

  lemma TakeFront(f: seq<Byte>, fs: seq<seq<Byte>>, n: nat)
    requires 0 < n <= |fs| + 1
    ensures ([f] + fs)[..n] == [f] + fs[..n - 1]
  {
  }

  lemma {:induction false} FramesMany(k: Kind, ps: seq<Packet>)
    requires forall p :: p in ps ==> Sendable(k, p)
    ensures |Frames(k, ps)| == |ps|
    decreases |ps|
  {
    if ps != [] {
      FramesMany(k, ps[1..]);
    }
  }

  /** A packet that does not fit is never delivered: reading stops at its header, with what came before it. */
  lemma TooLongIsRefused(k: Kind, room: nat, ps: seq<Packet>, long: Packet, more: seq<Byte>)
    requires AllFit(k, room, ps) && Sendable(k, long) && |Encoded(k, long)| > room
    ensures ParseAll(k, room, Concat(Frames(k, ps)) + (Encoded(k, long) + more))
            == Parsed(Frames(k, ps), [], IllegalSequence)
  {
    var s, t := Concat(Frames(k, ps)), Encoded(k, long) + more;
    SentIsReceived(k, room, ps);
    ParseSplit(k, room, s, t);
    OnePacket(k, room, long);
    ParseOversize(k, room, |t|, Encoded(k, long), more);
    assert [] + t == t;
  }
}
