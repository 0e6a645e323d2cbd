/**
 The two receivers that reassemble HCI packets from USB transfers: the one
 that feeds the host stack (btusb_recv_intr, btusb_recv_bulk and
 btusb_recv_isoc, which differ only in header and buffer size) and the
 coexistence snooper's own one for events. Both are proved to read the stream
 as HciFraming.Parse does, so they always see the same packets.
 */
module HciReceivers {
  import opened Buffers
  import opened Octets
  import opened HciFraming

  function Min(a: nat, b: nat): nat {
    if a <= b then a else b
  }

  /** Octets still to come before a partial packet reaches its next milestone: header, then packet. */
  function Missing(k: Kind, s: seq<Byte>): nat
    requires Incomplete(k, s)
  {
    if |s| < HeaderSize(k) then HeaderSize(k) - |s| else HeaderSize(k) + Announced(k, s) - |s|
  }

  /** Frames delivered so far, in front of what is still to be read. */
  function After(frames: seq<seq<Byte>>, p: Parsed): Parsed {
    p.(frames := frames + p.frames)
  }

  lemma NothingYet(p: Parsed)
    ensures After([], p) == p
  {
  }

  lemma NothingMore(frames: seq<seq<Byte>>, rest: seq<Byte>)
    ensures After(frames, Parsed([], rest, Ok)) == Parsed(frames, rest, Ok)
  {
  }

  lemma ParsePending(k: Kind, room: nat, allocs: nat, p: seq<Byte>)
    requires Pending(k, room, p) && (p != [] ==> allocs > 0)
    ensures Parse(k, room, allocs, p) == Parsed([], p, Ok)
  {
  }

  /** Delivering the packet at the front leaves the rest to be read. */
  lemma Deliver(k: Kind, room: nat, left: nat, frames: seq<seq<Byte>>, f: seq<Byte>, todo: seq<Byte>)
    requires Exact(k, room, f)
    ensures After(frames, Parse(k, room, left + 1, f + todo)) == After(frames + [f], Parse(k, room, left, todo))
  {
  }

  lemma MoveOver(p: seq<Byte>, b: seq<Byte>, len: nat)
    requires len <= |b|
    ensures p + b == (p + b[..len]) + b[len..]
  {
  }

  /** The number of octets a receiver waits for after taking `chunk` into the partial packet p. */
  function AwaitedAfter(k: Kind, p: seq<Byte>, chunk: seq<Byte>): int
    requires Incomplete(k, p)
  {
    if |p + chunk| == HeaderSize(k) then Announced(k, p + chunk) else Missing(k, p) - |chunk|
  }

  /** Taking a chunk no longer than what is missing: the header turns out bad, the packet completes, or it grows. */
  lemma Grow(k: Kind, room: nat, p: seq<Byte>, chunk: seq<Byte>)
    requires HeaderSize(k) <= room && Pending(k, room, p) && 0 < |chunk| <= Missing(k, p)
    ensures var q, e := p + chunk, AwaitedAfter(k, p, chunk);
            && (Oversize(k, room, q) <==> |q| == HeaderSize(k) && room - |q| < e)
            && (!Oversize(k, room, q) ==>
                  if e == 0 then Exact(k, room, q) else Pending(k, room, q) && e == Missing(k, q))
  {
  }

  /** One turn of a receiver's loop, seen from the stream: what is left to read after taking `len` octets. */
  lemma Turn(k: Kind, room: nat, left: nat, frames: seq<seq<Byte>>, p: seq<Byte>, todo: seq<Byte>, len: nat)
    requires HeaderSize(k) <= room && Pending(k, room, p) && 0 < len <= |todo| && len <= Missing(k, p)
    ensures var q, t := p + todo[..len], todo[len..];
            var e := AwaitedAfter(k, p, todo[..len]);
            var ahead := After(frames, Parse(k, room, left + 1, p + todo));
            && (Oversize(k, room, q) <==> |q| == HeaderSize(k) && room - |q| < e)
            && if Oversize(k, room, q) then ahead == Parsed(frames, [], IllegalSequence)
               else if e == 0 then ahead == After(frames + [q], Parse(k, room, left, [] + t))
               else && Pending(k, room, q) && e == Missing(k, q)
                    && ahead == After(frames, Parse(k, room, left + 1, q + t))
  {
    var q, t := p + todo[..len], todo[len..];
    Grow(k, room, p, todo[..len]);
    MoveOver(p, todo, len);
    if Oversize(k, room, q) {
      ParseOversize(k, room, left + 1, q, t);
    } else if AwaitedAfter(k, p, todo[..len]) == 0 {
      Deliver(k, room, left, frames, q, t);
      assert [] + t == t;
    }
  }

  /** Copies as much of `todo` as the partial packet p waits for; a header it completes sets the new wait. */
  method Take(k: Kind, room: nat, p: seq<Byte>, e: nat, todo: seq<Byte>, ghost left: nat, ghost frames: seq<seq<Byte>>)
    returns (q: seq<Byte>, e': nat, t: seq<Byte>)
    requires HeaderSize(k) <= room && Pending(k, room, p) && e == Missing(k, p) && todo != []
    ensures |t| < |todo| && q != []
    ensures var ahead := After(frames, Parse(k, room, left + 1, p + todo));
            if room < |q| + e' then ahead == Parsed(frames, [], IllegalSequence)
            else if e' == 0 then ahead == After(frames + [q], Parse(k, room, left, [] + t))
            else && Pending(k, room, q) && e' == Missing(k, q)
                 && ahead == After(frames, Parse(k, room, left + 1, q + t))
  {
    var len := Min(e, |todo|);
    Turn(k, room, left, frames, p, todo, len);
    q, e', t := p + todo[..len], e - len, todo[len..];
    if |q| == HeaderSize(k) {
      e' := Announced(k, q);
    }
  }

  class HciReceiver {
    const kind: Kind
    /** Tailroom of a freshly allocated buffer. */
    const room: nat
    /** The octets of the packet being assembled (none when no buffer is held), and how many it waits for. */
    var skb: seq<Byte>
    var awaited: nat

    constructor (kind: Kind, room: nat)
      requires HeaderSize(kind) <= room
      ensures Valid() && skb == [] && this.kind == kind && this.room == room
    {
      this.kind, this.room := kind, room;
      skb, awaited := [], 0;
    }

    ghost predicate Valid()
      reads this
    {
      && HeaderSize(kind) <= room && Pending(kind, room, skb)
      && (skb != [] ==> awaited == Missing(kind, skb))
    }

    /**
     btusb_recv_intr, btusb_recv_bulk, btusb_recv_isoc. `allocs` buffers can be had before
     allocation fails. The partial packet kept from earlier calls and this buffer are read as one.
     */
    method Recv(buffer: seq<Byte>, allocs: nat) returns (frames: seq<seq<Byte>>, err: Outcome)
      requires Valid()
      modifies this
      ensures Valid()
      ensures Parsed(frames, skb, err)
              == Parse(kind, room, allocs + (if old(skb) == [] then 0 else 1), old(skb) + buffer)
    {
      ghost var whole := Ahead([], skb, buffer, allocs);
      NothingYet(Parse(kind, room, allocs + (if skb == [] then 0 else 1), skb + buffer));
      frames, err := [], Ok;
      var p, e := skb, awaited;
      var todo, left := buffer, allocs;
      while todo != []
        invariant Pending(kind, room, p) && (p != [] ==> e == Missing(kind, p))
        invariant whole == Ahead(frames, p, todo, left)
        decreases |todo|
      {
        if p == [] {
          if left == 0 {
            assert [] + todo == todo && frames + [] == frames;
            skb := [];
            return frames, NoMemory;
          }
          left, e := left - 1, HeaderSize(kind);
        }
        var bad;
        frames, p, e, todo, bad := OneTurn(frames, p, e, todo, left, whole);
        if bad {
          skb := [];
          return frames, IllegalSequence;
        }
      }
      assert p + todo == p;
      ParsePending(kind, room, left + (if p == [] then 0 else 1), p);
      NothingMore(frames, p);
      skb, awaited := p, e;
    }

    /** One turn of the loop, with a buffer in hand; `bad` at a header that announces too much. */
    method OneTurn(frames: seq<seq<Byte>>, p: seq<Byte>, e: nat, todo: seq<Byte>, ghost left: nat, ghost whole: Parsed)
      returns (frames': seq<seq<Byte>>, p': seq<Byte>, e': nat, todo': seq<Byte>, bad: bool)
      requires HeaderSize(kind) <= room && Pending(kind, room, p) && e == Missing(kind, p) && todo != []
      requires whole == After(frames, Parse(kind, room, left + 1, p + todo))
      ensures |todo'| < |todo|
      ensures bad ==> whole == Parsed(frames', [], IllegalSequence)
      ensures !bad ==>
                && Pending(kind, room, p') && (p' != [] ==> e' == Missing(kind, p'))
                && whole == Ahead(frames', p', todo', left)
    {
      frames', bad := frames, false;
      p', e', todo' := Take(kind, room, p, e, todo, left, frames);
      if room < |p'| + e' {
        bad := true;
      } else if e' == 0 {
        frames', p' := frames + [p'], [];
      }
    }

    /** What the call comes to with the packet p in hand, `todo` to read and `left` more buffers to be had. */
    ghost function Ahead(frames: seq<seq<Byte>>, p: seq<Byte>, todo: seq<Byte>, left: nat): Parsed {
      After(frames, Parse(kind, room, left + (if p == [] then 0 else 1), p + todo))
    }
  }

  /** The coexistence snooper's event receiver: one fixed buffer, a write position and two counters. */
  class CoexReceiver {
    const backBuff: array<Byte>
    /** Write position in the buffer, or a negative number for the null pointer. */
    var tbuff: int
    var elen: nat
    var awaited: nat

    constructor (room: nat)
      requires HeaderSize(Event) <= room
      ensures Valid() && fresh(backBuff) && backBuff.Length == room && Contents() == []
    {
      backBuff := new Byte[room](_ => 0);
      tbuff, elen, awaited := -1, 0, 0;
    }

    /** The partial packet in the buffer. */
    ghost function Contents(): seq<Byte>
      reads this, backBuff
    {
      if 0 <= tbuff <= backBuff.Length then backBuff[..tbuff] else []
    }

    ghost predicate Valid()
      reads this, backBuff
    {
      && HeaderSize(Event) <= backBuff.Length
      && (tbuff >= 0 ==>
            && 0 < tbuff == elen <= backBuff.Length
            && Pending(Event, backBuff.Length, Contents())
            && awaited == Missing(Event, Contents()))
    }

    /** Copies as much as the packet waits for; a header it completes sets the new wait. */
    method TakeIn(todo: seq<Byte>, ghost p: seq<Byte>, ghost left: nat, ghost frames: seq<seq<Byte>>)
      returns (t: seq<Byte>)
      requires HeaderSize(Event) <= backBuff.Length && 0 <= tbuff == elen <= backBuff.Length && p == backBuff[..elen]
      requires Pending(Event, backBuff.Length, p) && awaited == Missing(Event, p) && todo != []
      modifies this, backBuff
      ensures |t| < |todo| && 0 < tbuff == elen <= backBuff.Length && elen + |t| == |p| + |todo|
      ensures var q, room := backBuff[..elen], backBuff.Length;
              var ahead := After(frames, Parse(Event, room, left + 1, p + todo));
              if room < elen + awaited then ahead == Parsed(frames, [], IllegalSequence)
              else if awaited == 0 then ahead == After(frames + [q], Parse(Event, room, left, [] + t))
              else && Pending(Event, room, q) && awaited == Missing(Event, q)
                   && ahead == After(frames, Parse(Event, room, left + 1, q + t))
    {
      var len := Min(awaited, |todo|);
      Turn(Event, backBuff.Length, left, frames, p, todo, len);
      CopyIn(backBuff, tbuff, todo[..len]);
      assert backBuff[..tbuff + len] == p + todo[..len];
      tbuff, elen, awaited := tbuff + len, elen + len, awaited - len;
      t := todo[len..];
      if elen == HeaderSize(Event) {
        awaited := Announced(Event, backBuff[..elen]);
      }
    }

    /** One turn of the loop; `bad` at a header that announces too much. */
    method OneTurn(todo: seq<Byte>, frames: seq<seq<Byte>>, ghost bufs: nat, ghost whole: Parsed)
      returns (frames': seq<seq<Byte>>, todo': seq<Byte>, bad: bool, ghost bufs': nat)
      requires Valid() && todo != [] && bufs >= |Contents()| + |todo|
      requires whole == After(frames, Parse(Event, backBuff.Length, bufs, Contents() + todo))
      modifies this, backBuff
      ensures Valid() && |todo'| < |todo|
      ensures bad ==> Contents() == [] && whole == Parsed(frames', [], IllegalSequence)
      ensures !bad ==>
                && bufs' >= |Contents()| + |todo'|
                && whole == After(frames', Parse(Event, backBuff.Length, bufs', Contents() + todo'))
    {
      ghost var p := Contents();
      frames', bad, bufs' := frames, false, bufs;
      if tbuff < 0 {
        tbuff, elen, awaited := 0, 0, HeaderSize(Event);
      }
      todo' := TakeIn(todo, p, bufs - 1, frames);
      if awaited > backBuff.Length - elen {
        tbuff, elen := -1, 0;
        bad := true;
      } else if awaited == 0 {
        frames' := frames + [backBuff[..elen]];
        tbuff, elen := -1, 0;
        bufs' := bufs - 1;
      }
    }

    /** rtk_btcoex_parse_event: the frames are the arguments of the calls to rtk_btcoex_evt_enqueue, in order. */
    method ParseEvent(buffer: seq<Byte>) returns (frames: seq<seq<Byte>>, ghost err: Outcome)
      requires Valid()
      modifies this, backBuff
      ensures Valid()
      ensures Parsed(frames, Contents(), err) == Received(Event, backBuff.Length, old(Contents()), buffer)
    {
      frames, err := [], Ok;
      ghost var whole := Received(Event, backBuff.Length, Contents(), buffer);
      ghost var bufs: nat := |Contents() + buffer|;
      var todo := buffer;
      while todo != []
        invariant Valid() && bufs >= |Contents()| + |todo|
        invariant whole == After(frames, Parse(Event, backBuff.Length, bufs, Contents() + todo))
        decreases |todo|
      {
        var bad;
        frames, todo, bad, bufs := OneTurn(todo, frames, bufs, whole);
        if bad {
          return frames, IllegalSequence;
        }
      }
      assert Contents() + todo == Contents();
    }
  }

  /**
   The snooper simulates the host receiver: fed the same buffers from the same partial packet, with
   equal buffer sizes and no allocation failure, it enqueues exactly the packets the host stack is
   given, also after a bad header, and both keep the same partial packet.
   */
  method FeedBoth(hci: HciReceiver, coex: CoexReceiver, buffers: seq<seq<Byte>>)
    returns (delivered: seq<seq<Byte>>, enqueued: seq<seq<Byte>>)
    requires hci.Valid() && coex.Valid() && hci.kind == Event && hci.room == coex.backBuff.Length
    requires hci.skb == coex.Contents()
    modifies hci, coex, coex.backBuff
    ensures delivered == enqueued
    ensures delivered == ReceivedAll(Event, hci.room, old(hci.skb), buffers).frames
    ensures hci.Valid() && coex.Valid() && hci.skb == coex.Contents()
  {
    delivered, enqueued := [], [];
    ghost var all := ReceivedAll(Event, hci.room, hci.skb, buffers).frames;
    var todo := buffers;
    while todo != []
      invariant hci.Valid() && coex.Valid() && hci.skb == coex.Contents() && delivered == enqueued
      invariant all == delivered + ReceivedAll(Event, hci.room, hci.skb, todo).frames
      decreases |todo|
    {
      var mine, its := FeedOne(hci, coex, todo[0]);
      delivered, enqueued := delivered + mine, enqueued + its;
      todo := todo[1..];
    }
  }

  method FeedOne(hci: HciReceiver, coex: CoexReceiver, buffer: seq<Byte>)
    returns (delivered: seq<seq<Byte>>, enqueued: seq<seq<Byte>>)
    requires hci.Valid() && coex.Valid() && hci.kind == Event && hci.room == coex.backBuff.Length
    requires hci.skb == coex.Contents()
    modifies hci, coex, coex.backBuff
    ensures hci.Valid() && coex.Valid()
    ensures var p := Received(Event, hci.room, old(hci.skb), buffer);
            delivered == enqueued == p.frames && hci.skb == coex.Contents() == p.rest
  {
    ghost var s := hci.skb + buffer;
    EnoughMemory(Event, hci.room, |s|, s);
    EnoughMemory(Event, hci.room, |s| + 1, s);
    var err;
    ghost var err';
    delivered, err := hci.Recv(buffer, |hci.skb| + |buffer|);
    enqueued, err' := coex.ParseEvent(buffer);
  }
}
