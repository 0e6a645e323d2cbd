/**
 PPPoE relay tags of the NAT2.5 bridge (Appendix A of RFC 2516).

 Towards the access concentrator the bridge puts the client's MAC address
 into a relay tag of the discovery packet; on the way back it takes it out
 again and addresses the packet to that client. This module states both on
 tag lists and proves the round trip; PppoeFrames does the byte work.
 */
module PppoeRelay {

  import opened Octets

  type Mac = m: seq<Byte> | |m| == 6 witness [0, 0, 0, 0, 0, 0]

  datatype Tag = Tag(kind: Word, data: seq<Byte>)

  const PTT_RELAY_SID: Word := 0x0110
  const MAGIC: seq<Byte> := [0x81, 0x86]
  const MAGIC_CODE_LEN: nat := 2
  const RTL_RELAY_TAG_LEN: nat := 6
  const TAG_HDR_LEN: nat := 4
  const TAG_BUF_LEN: nat := 40

  datatype Option<T> = None | Some(value: T)

  /** Position of the first relay tag, or the length of the list. */
  function RelayAt(tags: seq<Tag>): (i: nat)
    ensures i <= |tags|
    ensures i < |tags| ==> tags[i].kind == PTT_RELAY_SID
    ensures forall j :: 0 <= j < i ==> tags[j].kind != PTT_RELAY_SID
  {
    if tags == [] || tags[0].kind == PTT_RELAY_SID then 0 else 1 + RelayAt(tags[1..])
  }

  predicate HasRelay(tags: seq<Tag>) {
    RelayAt(tags) < |tags|
  }

  /** The list with its first relay tag taken out. */
  function WithoutRelay(tags: seq<Tag>): seq<Tag> {
    if HasRelay(tags) then tags[..RelayAt(tags)] + tags[RelayAt(tags) + 1..] else tags
  }

  function OldData(tags: seq<Tag>): seq<Byte> {
    if HasRelay(tags) then tags[RelayAt(tags)].data else []
  }

  /** The relay tag a client had put in itself, unless it was empty. */
  function OwnTag(tags: seq<Tag>): seq<Tag> {
    if OldData(tags) == [] then [] else [Tag(PTT_RELAY_SID, OldData(tags))]
  }

  /** The relay tag sent for a client: magic code, client address, and the data of a relay tag it replaces. */
  function RelayTag(client: Mac, tags: seq<Tag>): Tag {
    Tag(PTT_RELAY_SID, MAGIC + client + OldData(tags))
  }

  /** The old relay data fits the driver's tag buffer. */
  predicate Fits(tags: seq<Tag>) {
    |OldData(tags)| + TAG_HDR_LEN + MAGIC_CODE_LEN + RTL_RELAY_TAG_LEN <= TAG_BUF_LEN
  }

  /** Outgoing PADI or PADR: the relay tag goes to the front. */
  function Inserted(client: Mac, tags: seq<Tag>): seq<Tag> {
    [RelayTag(client, tags)] + WithoutRelay(tags)
  }

  /** A relay tag this driver can take apart. */
  predicate Ours(t: Tag) {
    t.kind == PTT_RELAY_SID && |t.data| >= MAGIC_CODE_LEN + RTL_RELAY_TAG_LEN && t.data[..2] == MAGIC
  }

  /** What is left of a relay tag: nothing, or the data of the tag it replaced. */
  function Remainder(t: Tag): seq<Tag>
    requires Ours(t)
  {
    if |t.data| > 8 then [Tag(PTT_RELAY_SID, t.data[8..])] else []
  }

  datatype Stripped = Stripped(client: Mac, tags: seq<Tag>)

  /** Incoming PADO or PADS: the client to address and the tags to pass on; nothing if the packet is not ours. */
  function Strip(tags: seq<Tag>): (r: Option<Stripped>) {
    var i := RelayAt(tags);
    if i == |tags| || !Ours(tags[i]) then None
    else Some(Stripped(tags[i].data[2..8], tags[..i] + Remainder(tags[i]) + tags[i + 1..]))
  }

  /** The tag list a client gets back when its own tags are echoed. */
  function Restored(tags: seq<Tag>): seq<Tag> {
    OwnTag(tags) + WithoutRelay(tags)
  }

  lemma RelayAtIs(tags: seq<Tag>, i: nat)
    requires i < |tags| && tags[i].kind == PTT_RELAY_SID
    requires forall j :: 0 <= j < i ==> tags[j].kind != PTT_RELAY_SID
    ensures RelayAt(tags) == i
  {
  }

  /**
   Whatever tags the access concentrator puts around the echoed relay tag, as long as no relay tag of
   its own comes first, the packet goes to the client that sent the request, the concentrator's
   tags are untouched, and the client finds its own old relay tag where the echo was.
   */
  lemma EchoIsStripped(client: Mac, tags: seq<Tag>, before: seq<Tag>, after: seq<Tag>)
    requires !HasRelay(before)
    ensures Strip(before + [RelayTag(client, tags)] + after) == Some(Stripped(client, before + OwnTag(tags) + after))
  {
    var t := RelayTag(client, tags);
    var reply := before + [t] + after;
    assert forall j :: 0 <= j < |before| ==> reply[j] == before[j];
    RelayAtIs(reply, |before|);
    assert reply[..|before|] == before && reply[|before| + 1..] == after;
    assert t.data[..2] == MAGIC && t.data[2..8] == client && t.data[8..] == OldData(tags);
  }

  /** Round trip: the client's address comes back, and its tags in restored order. */
  lemma RoundTrip(client: Mac, tags: seq<Tag>)
    ensures Strip(Inserted(client, tags)) == Some(Stripped(client, Restored(tags)))
  {
    EchoIsStripped(client, tags, [], WithoutRelay(tags));
    assert [] + [RelayTag(client, tags)] + WithoutRelay(tags) == Inserted(client, tags);
    assert [] + OwnTag(tags) + WithoutRelay(tags) == Restored(tags);
  }

  /** The tags come back exactly as they were just when there was no relay tag, or a nonempty one in front. */
  lemma RestoredExactly(tags: seq<Tag>)
    ensures Restored(tags) == tags <==> !HasRelay(tags) || (RelayAt(tags) == 0 && tags[0].data != [])
  {
  }

  /**
   When a packet is left alone: it has no relay tag (type 0x0110), or the first one is too short for the driver's own
   octets or does not begin with its magic code, so that it is somebody else's.
   */
  lemma ForeignIsLeftAlone(tags: seq<Tag>)
    ensures Strip(tags) == None <==>
              || (forall t :: t in tags ==> t.kind != 0x0110)
              || exists i :: && 0 <= i < |tags| && tags[i].kind == 0x0110
                             && (forall j :: 0 <= j < i ==> tags[j].kind != 0x0110)
                             && (|tags[i].data| < 8 || tags[i].data[0] != 0x81 || tags[i].data[1] != 0x86)
  {
    var i := RelayAt(tags);
    if i == |tags| {
      assert forall t :: t in tags ==> t.kind != 0x0110;
    } else {
      assert tags[i] in tags;
      forall k | 0 <= k < |tags| && tags[k].kind == 0x0110 && forall j :: 0 <= j < k ==> tags[j].kind != 0x0110
        ensures k == i
      {
      }
      OwnTagOctets(tags[i]);
    }
  }

  lemma OwnTagOctets(t: Tag)
    requires t.kind == 0x0110
    ensures Ours(t) <==> |t.data| >= 8 && t.data[0] == 0x81 && t.data[1] == 0x86
  {
    if |t.data| >= 2 {
      assert t.data[..2] == [t.data[0], t.data[1]];
    }
  }

  // ------------------------------------------------------------- byte order

  /** The 16-bit value a host reads from a field written by htons. */
  function AsRead(bigEndian: bool, w: Word): Word {
    if bigEndian then w else Swapped(w)
  }

  /** The length __nat25_add_pppoe_tag works with: it reads the network-order length field as is. */
  function AddedLength(bigEndian: bool, tagLen: Word): nat {
    AsRead(bigEndian, tagLen) + TAG_HDR_LEN
  }

  /** The relay tag is added with its own length exactly on a big-endian host. */
  lemma AddedLengthRight(bigEndian: bool, tags: seq<Tag>, client: Mac)
    requires Fits(tags)
    ensures var n := |RelayTag(client, tags).data|;
            AddedLength(bigEndian, n) == TAG_HDR_LEN + n <==> bigEndian
  {
  }
}
