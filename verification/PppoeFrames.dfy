/**
 The byte work behind PppoeRelay: finding, inserting and stripping the relay
 tag inside a socket buffer, with the overlapping copies the driver makes.
 */
module PppoeFrames {
  import opened Buffers
  import opened Octets
  import opened PppoeRelay

  /** Ethernet header (14), then version, code and session id (4), then the length field (2), then the tags. */
  const LENGTH_AT: nat := 18
  const TAGS_AT: nat := 20
  const ETH_ALEN: nat := 6

  /** htons, in memory. */
  function Be(n: nat): (b: seq<Byte>)
    ensures |b| == 2
  {
    [(n / 256) % 256, n % 256]
  }

  /** ntohs, from memory. */
  function FromBe(b: seq<Byte>): Word
    requires |b| == 2
  {
    b[0] as int * 256 + b[1] as int
  }

  lemma BeRoundTrip(n: Word)
    ensures FromBe(Be(n)) == n
  {
  }

  predicate Sized(tags: seq<Tag>) {
    forall t :: t in tags ==> |t.data| < 0x1_0000
  }

  function EncodeTag(t: Tag): (b: seq<Byte>)
    ensures |b| == TAG_HDR_LEN + |t.data|
  {
    Be(t.kind) + Be(|t.data|) + t.data
  }

  function Encode(tags: seq<Tag>): seq<Byte> {
    if tags == [] then [] else EncodeTag(tags[0]) + Encode(tags[1..])
  }

  lemma {:induction false} EncodeConcat(a: seq<Tag>, b: seq<Tag>)
    ensures Encode(a + b) == Encode(a) + Encode(b)
    decreases |a|
  {
    if a == [] {
      assert a + b == b;
    } else {
      EncodeConcat(a[1..], b);
      assert (a + b)[1..] == a[1..] + b;
      assert EncodeTag(a[0]) + (Encode(a[1..]) + Encode(b)) == (EncodeTag(a[0]) + Encode(a[1..])) + Encode(b);
    }
  }

  lemma EncodeOne(t: Tag)
    ensures Encode([t]) == EncodeTag(t)
  {
  }

  lemma EncodeUpto(tags: seq<Tag>, i: nat)
    requires i < |tags|
    ensures Encode(tags[..i + 1]) == Encode(tags[..i]) + EncodeTag(tags[i])
  {
    assert tags[..i + 1] == tags[..i] + [tags[i]];
    EncodeConcat(tags[..i], [tags[i]]);
    EncodeOne(tags[i]);
  }

  /** The bytes of a list around its i-th tag. */
  lemma EncodeAround(tags: seq<Tag>, i: nat)
    requires i < |tags|
    ensures Encode(tags) == Encode(tags[..i]) + EncodeTag(tags[i]) + Encode(tags[i + 1..])
    ensures Encode(tags[..i + 1]) == Encode(tags[..i]) + EncodeTag(tags[i])
  {
    EncodeUpto(tags, i);
    SplitAt(tags, i + 1);
    EncodeConcat(tags[..i + 1], tags[i + 1..]);
  }

  lemma SplitAt(tags: seq<Tag>, i: nat)
    requires i <= |tags|
    ensures tags[..i] + tags[i..] == tags
  {
  }

  /** Where tag i starts, in a buffer that carries the list. */
  function Offset(tags: seq<Tag>, i: nat): nat
    requires i <= |tags|
  {
    TAGS_AT + |Encode(tags[..i])|
  }

  lemma Middle(s: seq<Byte>, a: seq<Byte>, b: seq<Byte>, c: seq<Byte>)
    requires s == a + b + c
    ensures s[|a|..|a| + |b|] == b && s[..|a|] == a && s[|a| + |b|..] == c
  {
  }

  /** d is a discovery packet whose length field and payload encode `tags`; octets may follow the payload. */
  ghost predicate Carries(d: seq<Byte>, tags: seq<Tag>) {
    Sized(tags) && HasPayload(d, Encode(tags))
  }

  predicate HasPayload(d: seq<Byte>, e: seq<Byte>) {
    && TAGS_AT + |e| <= |d| < 0x1_0000
    && d[LENGTH_AT..TAGS_AT] == Be(|e|)
    && d[TAGS_AT..TAGS_AT + |e|] == e
  }

  /** A tag in a packet: type, length, both with the high octet first, and data. */
  lemma TagOctets(kind: Word, data: seq<Byte>)
    requires |data| < 0x1_0000
    ensures EncodeTag(Tag(kind, data)) == [kind / 256, kind % 256, |data| / 256, |data| % 256] + data
  {
  }

  /** The relay tag sent for a client. */
  lemma RelayTagOctets(client: Mac, tags: seq<Tag>)
    requires |OldData(tags)| < 0x1_0000 - 8
    ensures var n := 8 + |OldData(tags)|;
            EncodeTag(RelayTag(client, tags))
            == [0x01, 0x10, n / 256, n % 256, 0x81, 0x86] + client + OldData(tags)
  {
    TagOctets(PTT_RELAY_SID, MAGIC + client + OldData(tags));
    assert [0x01, 0x10] + [0x81, 0x86] == [0x01, 0x10, 0x81, 0x86];
  }

  /** A discovery packet: eighteen octets of headers, the length of the tags with its high octet first, and the tags. */
  lemma PacketOctets(h: seq<Byte>, tags: seq<Tag>, tail: seq<Byte>)
    requires |h| == 18 && Sized(tags) && 20 + |Encode(tags)| + |tail| < 0x1_0000
    ensures Carries(h + [|Encode(tags)| / 256, |Encode(tags)| % 256] + Encode(tags) + tail, tags)
  {
    var e := Encode(tags);
    FramesPayload(h + Be(|e|) + e + tail, h, e, tail);
    assert Be(|e|) == [|e| / 256, |e| % 256];
  }

  lemma Slice(d: seq<Byte>, base: nat, e: seq<Byte>, from: nat, to: nat)
    requires base + |e| <= |d| && d[base..base + |e|] == e && from <= to <= |e|
    ensures d[base + from..base + to] == e[from..to]
  {
    var m := d[base..base + |e|];
    assert forall i :: from <= i < to ==> m[i] == d[base + i];
    assert m[from..to] == d[base + from..base + to];
  }

  /** A packet with its first 18 octets, its payload, and whatever follows. */
  function Framed(h: seq<Byte>, e: seq<Byte>, tail: seq<Byte>): seq<Byte> {
    h + Be(|e|) + e + tail
  }

  /** Having a payload is having that form. */
  lemma PayloadFrames(d: seq<Byte>, e: seq<Byte>)
    requires HasPayload(d, e)
    ensures d == Framed(d[..LENGTH_AT], e, d[TAGS_AT + |e|..])
  {
  }

  lemma FramesPayload(d: seq<Byte>, h: seq<Byte>, e: seq<Byte>, tail: seq<Byte>)
    requires |h| == LENGTH_AT && d == Framed(h, e, tail) && |d| < 0x1_0000
    ensures HasPayload(d, e) && d[..LENGTH_AT] == h
  {
  }

  /** A packet with n octets cut out at p and m written as its length. */
  function Cut(d: seq<Byte>, p: nat, n: nat, m: nat): (r: seq<Byte>)
    requires TAGS_AT <= p && p + n <= |d|
    ensures |r| == |d| - n
  {
    d[..LENGTH_AT] + Be(m) + d[TAGS_AT..p] + d[p + n..]
  }

  lemma CutPacket(h: seq<Byte>, l: seq<Byte>, a: seq<Byte>, b: seq<Byte>, c: seq<Byte>, tail: seq<Byte>, m: nat)
    requires |h| == LENGTH_AT && |l| == 2
    ensures Cut(h + l + (a + b + c) + tail, TAGS_AT + |a|, |b|, m) == h + Be(m) + (a + c) + tail
  {
  }

  lemma SliceOfMiddle(d: seq<Byte>, base: nat, e: seq<Byte>, a: seq<Byte>, b: seq<Byte>, c: seq<Byte>, p: nat, q: nat)
    requires base + |e| <= |d| && d[base..base + |e|] == e && e == a + b + c
    requires p == base + |a| && q == p + |b|
    ensures q <= base + |e| && d[p..q] == b
  {
    Middle(e, a, b, c);
    Slice(d, base, e, |a|, |a| + |b|);
  }

  lemma OffsetNext(tags: seq<Tag>, i: nat)
    requires i < |tags|
    ensures Offset(tags, i + 1) == Offset(tags, i) + |EncodeTag(tags[i])|
  {
    EncodeUpto(tags, i);
  }

  /** The bytes of tag i, where it starts. */
  lemma TagAt(d: seq<Byte>, tags: seq<Tag>, i: nat)
    requires Carries(d, tags) && i < |tags|
    ensures Offset(tags, i + 1) == Offset(tags, i) + TAG_HDR_LEN + |tags[i].data| <= TAGS_AT + |Encode(tags)| <= |d|
    ensures d[Offset(tags, i)..Offset(tags, i + 1)] == EncodeTag(tags[i])
  {
    EncodeAround(tags, i);
    OffsetNext(tags, i);
    SliceOfMiddle(d, TAGS_AT, Encode(tags), Encode(tags[..i]), EncodeTag(tags[i]), Encode(tags[i + 1..]),
                  Offset(tags, i), Offset(tags, i + 1));
  }

  /** Its header fields. */
  lemma TagFields(d: seq<Byte>, tags: seq<Tag>, i: nat)
    requires Carries(d, tags) && i < |tags|
    ensures var p := Offset(tags, i);
            && p + TAG_HDR_LEN + |tags[i].data| <= |d|
            && FromBe(d[p..p + 2]) == tags[i].kind && FromBe(d[p + 2..p + 4]) == |tags[i].data|
            && d[p + 4..p + 4 + |tags[i].data|] == tags[i].data
  {
    TagAt(d, tags, i);
    var p, e := Offset(tags, i), EncodeTag(tags[i]);
    Slice(d, p, e, 0, 2);
    Slice(d, p, e, 2, 4);
    Slice(d, p, e, 4, |e|);
    assert tags[i] in tags;
    BeRoundTrip(tags[i].kind);
    BeRoundTrip(|tags[i].data|);
  }

  /** What the scan for a relay tag comes to: the place of one, none, or a header outside the packet. */
  datatype Found = At(at: nat) | Nowhere | Outside

  /** The scan from `at` on, in whatever octets; `end` is where the length field says the tags end. */
  function RelayFrom(d: seq<Byte>, at: nat, end: nat): Found
    decreases if at < end then end - at else 0
  {
    if at >= end then Nowhere
    else if at + TAG_HDR_LEN > |d| then Outside
    else if FromBe(d[at..at + 2]) == PTT_RELAY_SID then At(at)
    else RelayFrom(d, at + TAG_HDR_LEN + FromBe(d[at + 2..at + 4]), end)
  }

  lemma {:induction false} RelayBehind(d: seq<Byte>, tags: seq<Tag>, i: nat)
    requires Carries(d, tags) && i <= |tags| && forall j :: 0 <= j < i ==> tags[j].kind != PTT_RELAY_SID
    ensures RelayFrom(d, Offset(tags, i), Offset(tags, |tags|))
            == if HasRelay(tags) then At(Offset(tags, RelayAt(tags))) else Nowhere
    decreases |tags| - i
  {
    if i < |tags| {
      TagFields(d, tags, i);
      OffsetNext(tags, i);
      OffsetWithin(tags, i + 1);
      if tags[i].kind == PTT_RELAY_SID {
        RelayAtIs(tags, i);
      } else {
        RelayBehind(d, tags, i + 1);
      }
    }
  }

  lemma OffsetWithin(tags: seq<Tag>, i: nat)
    requires i <= |tags|
    ensures Offset(tags, i) <= Offset(tags, |tags|) == TAGS_AT + |Encode(tags)|
  {
    assert tags == tags[..i] + tags[i..] && tags[..|tags|] == tags;
    EncodeConcat(tags[..i], tags[i..]);
  }

  /** In a packet that carries a list the scan finds its first relay tag, or there is none. */
  lemma RelayOfList(d: seq<Byte>, tags: seq<Tag>)
    requires Carries(d, tags)
    ensures RelayFrom(d, TAGS_AT, TAGS_AT + FromBe(d[LENGTH_AT..TAGS_AT]))
            == if HasRelay(tags) then At(Offset(tags, RelayAt(tags))) else Nowhere
  {
    BeRoundTrip(|Encode(tags)|);
    OffsetWithin(tags, |tags|);
    assert tags[..0] == [];
    RelayBehind(d, tags, 0);
  }

  /** Cutting a part out of the payload and correcting the length leaves the rest of it. */
  lemma CutPayload(d: seq<Byte>, d': seq<Byte>, e: seq<Byte>, e': seq<Byte>, a: seq<Byte>, b: seq<Byte>, c: seq<Byte>,
                   p: nat, n: nat, m: nat)
    requires HasPayload(d, e) && e == a + b + c && e' == a + c && p == TAGS_AT + |a| && n == |b| && m == |e| - n
    requires p + n <= |d| && d' == Cut(d, p, n, m)
    ensures HasPayload(d', e') && d'[..LENGTH_AT] == d[..LENGTH_AT]
  {
    var h, tail := d[..LENGTH_AT], d[TAGS_AT + |e|..];
    PayloadFrames(d, e);
    CutPacket(h, Be(|e|), a, b, c, tail, m);
    FramesPayload(d', h, e', tail);
  }

  /** Cutting out tag i and correcting the length leaves the other tags. */
  lemma CutCarries(d: seq<Byte>, d': seq<Byte>, tags: seq<Tag>, i: nat, p: nat, n: nat, m: nat)
    requires Carries(d, tags) && i < |tags| && p == Offset(tags, i) && n == |EncodeTag(tags[i])|
    requires m == |Encode(tags)| - n && p + n <= |d| && d' == Cut(d, p, n, m)
    ensures Carries(d', tags[..i] + tags[i + 1..]) && d'[..LENGTH_AT] == d[..LENGTH_AT]
  {
    EncodeAround(tags, i);
    EncodeConcat(tags[..i], tags[i + 1..]);
    SizedRest(tags, i);
    CutPayload(d, d', Encode(tags), Encode(tags[..i] + tags[i + 1..]),
               Encode(tags[..i]), EncodeTag(tags[i]), Encode(tags[i + 1..]), p, n, m);
  }

  lemma SizedRest(tags: seq<Tag>, i: nat)
    requires Sized(tags) && i < |tags|
    ensures Sized(tags[..i] + tags[i + 1..])
  {
  }

  /** A tag written in front of the payload, with the length corrected, joins the list. */
  lemma AddCarries(d: seq<Byte>, d': seq<Byte>, t: Tag, tags: seq<Tag>)
    requires Carries(d, tags) && |t.data| < 0x1_0000
    requires TAGS_AT + |EncodeTag(t)| + |Encode(tags)| <= |d'| < 0x1_0000
    requires d'[LENGTH_AT..TAGS_AT] == Be(|Encode(tags)| + |EncodeTag(t)|)
    requires d'[TAGS_AT..TAGS_AT + |EncodeTag(t)|] == EncodeTag(t)
    requires d'[TAGS_AT + |EncodeTag(t)|..TAGS_AT + |EncodeTag(t)| + |Encode(tags)|] == Encode(tags)
    ensures Carries(d', [t] + tags)
  {
  }

  /** Writing the destination address leaves the rest of the header and the tags. */
  lemma NewDestination(d: seq<Byte>, mac: Mac, tags: seq<Tag>)
    requires Carries(d, tags)
    ensures Carries(Patched(d, 0, mac), tags)
    ensures Patched(d, 0, mac)[..LENGTH_AT] == mac + d[ETH_ALEN..LENGTH_AT]
  {
  }

  lemma Prefix(s: seq<Byte>, n: nat, from: nat, to: nat)
    requires from <= to <= n <= |s|
    ensures s[..n][from..to] == s[from..to]
  {
  }

  /** The three copies that put a tag in front of the payload. */
  lemma FrontBytes(d: seq<Byte>, tag: seq<Byte>, length: nat)
    requires TAGS_AT + length + |tag| <= |d|
    ensures var d1 := Patched(d, TAGS_AT + |tag|, d[TAGS_AT..TAGS_AT + length]);
            var r := Patched(Patched(d1, LENGTH_AT, Be(length + |tag|)), TAGS_AT, tag);
            && r[..LENGTH_AT] == d[..LENGTH_AT] && r[LENGTH_AT..TAGS_AT] == Be(length + |tag|)
            && r[TAGS_AT..TAGS_AT + |tag|] == tag
            && r[TAGS_AT + |tag|..TAGS_AT + |tag| + length] == d[TAGS_AT..TAGS_AT + length]
  {
    var p, moved := TAGS_AT + |tag|, d[TAGS_AT..TAGS_AT + length];
    var d1 := Patched(d, p, moved);
    var d2 := Patched(d1, LENGTH_AT, Be(length + |tag|));
    PatchedSlices(d, p, moved, 0, LENGTH_AT);
    PatchedSlices(d1, LENGTH_AT, Be(length + |tag|), 0, LENGTH_AT);
    PatchedSlices(d2, TAGS_AT, tag, 0, LENGTH_AT);
    PatchedSlices(d2, TAGS_AT, tag, LENGTH_AT, TAGS_AT);
    PatchedSlices(d1, LENGTH_AT, Be(length + |tag|), p, p + length);
    PatchedSlices(d2, TAGS_AT, tag, p, p + length);
  }

  lemma CutIsPatched(d: seq<Byte>, p: nat, n: nat, m: nat)
    requires TAGS_AT <= p && p + n <= |d|
    ensures Patched(d[..p] + d[p + n..], LENGTH_AT, Be(m)) == Cut(d, p, n, m)
  {
  }

  lemma PatchMiddle(a: seq<Byte>, b: seq<Byte>, b': seq<Byte>, c: seq<Byte>)
    requires |b| == |b'|
    ensures Patched(a + b + c, |a|, b') == a + b' + c
  {
  }

  /** The tag at p loses the first k octets of its data: m is the new payload length, n the new tag length. */
  function Shortened(d: seq<Byte>, p: nat, k: nat, m: nat, n: nat): seq<Byte>
    requires TAGS_AT <= p && p + TAG_HDR_LEN + k <= |d|
  {
    Patched(Cut(d, p + TAG_HDR_LEN, k, m), p + 2, Be(n))
  }

  lemma ShortenBytes(h: seq<Byte>, a: seq<Byte>, kind: seq<Byte>, n: seq<Byte>, x: seq<Byte>, y: seq<Byte>,
                     c: seq<Byte>, tail: seq<Byte>, l: seq<Byte>, m: nat, n': nat)
    requires |h| == LENGTH_AT && |kind| == |n| == |l| == 2
    ensures var e := (a + kind + n) + x + (y + c);
            Shortened(h + l + e + tail, TAGS_AT + |a|, |x|, m, n')
            == h + Be(m) + (a + (kind + Be(n') + y) + c) + tail
  {
    CutPacket(h, l, a + kind + n, x, y + c, tail, m);
    var front, back := h + Be(m) + a + kind, y + c + tail;
    Regroup2(h, Be(m), a, kind, n, y, c, tail);
    PatchMiddle(front, n, Be(n'), back);
    Regroup3(h, Be(m), a, kind, Be(n'), y, c, tail);
  }

  lemma Regroup2(h: seq<Byte>, m: seq<Byte>, a: seq<Byte>, k: seq<Byte>, n: seq<Byte>, y: seq<Byte>,
                 c: seq<Byte>, t: seq<Byte>)
    ensures h + m + ((a + k + n) + (y + c)) + t == (h + m + a + k) + n + (y + c + t)
  {
  }

  lemma Regroup3(h: seq<Byte>, m: seq<Byte>, a: seq<Byte>, k: seq<Byte>, n: seq<Byte>, y: seq<Byte>,
                 c: seq<Byte>, t: seq<Byte>)
    ensures (h + m + a + k) + n + (y + c + t) == h + m + (a + (k + n + y) + c) + t
  {
  }

  /** Taking x out of the data x + y of one tag of the payload, with both lengths corrected. */
  lemma ShortenPayload(d: seq<Byte>, d': seq<Byte>, e: seq<Byte>, e': seq<Byte>, a: seq<Byte>, kind: seq<Byte>,
                       whole: seq<Byte>, x: seq<Byte>, y: seq<Byte>, c: seq<Byte>,
                       p: nat, k: nat, m: nat, n: nat)
    requires HasPayload(d, e) && |kind| == |whole| == 2 && p == TAGS_AT + |a| && k == |x|
    requires e == (a + kind + whole) + x + (y + c) && e' == a + (kind + Be(n) + y) + c
    requires m == |e| - k && p + TAG_HDR_LEN + k <= |d| && d' == Shortened(d, p, k, m, n)
    ensures HasPayload(d', e') && d'[..LENGTH_AT] == d[..LENGTH_AT]
  {
    var h, tail := d[..LENGTH_AT], d[TAGS_AT + |e|..];
    PayloadFrames(d, e);
    ShortenBytes(h, a, kind, whole, x, y, c, tail, Be(|e|), m, n);
    FramesPayload(d', h, e', tail);
  }

  /** The list with the first k octets of tag i's data gone. */
  function WithShorter(tags: seq<Tag>, i: nat, k: nat): seq<Tag>
    requires i < |tags| && k <= |tags[i].data|
  {
    tags[..i] + [Tag(tags[i].kind, tags[i].data[k..])] + tags[i + 1..]
  }

  lemma Regroup(a: seq<Byte>, k: seq<Byte>, n: seq<Byte>, x: seq<Byte>, y: seq<Byte>, c: seq<Byte>)
    ensures a + (k + n + (x + y)) + c == (a + k + n) + x + (y + c)
  {
  }

  lemma EncodeShorter(tags: seq<Tag>, i: nat, k: nat)
    requires i < |tags| && k <= |tags[i].data|
    ensures var t, a, c := tags[i], Encode(tags[..i]), Encode(tags[i + 1..]);
            && Encode(tags) == (a + Be(t.kind) + Be(|t.data|)) + t.data[..k] + (t.data[k..] + c)
            && Encode(WithShorter(tags, i, k)) == a + (Be(t.kind) + Be(|t.data| - k) + t.data[k..]) + c
  {
    var t := tags[i];
    EncodeAround(tags, i);
    EncodeBetween(tags[..i], Tag(t.kind, t.data[k..]), tags[i + 1..]);
    assert t.data == t.data[..k] + t.data[k..];
    Regroup(Encode(tags[..i]), Be(t.kind), Be(|t.data|), t.data[..k], t.data[k..], Encode(tags[i + 1..]));
  }

  lemma SizedShorter(tags: seq<Tag>, i: nat, k: nat)
    requires Sized(tags) && i < |tags| && k <= |tags[i].data|
    ensures Sized(WithShorter(tags, i, k))
  {
    assert tags[i] in tags;
  }

  lemma EncodeBetween(a: seq<Tag>, t: Tag, c: seq<Tag>)
    ensures Encode(a + [t] + c) == Encode(a) + EncodeTag(t) + Encode(c)
  {
    EncodeConcat(a + [t], c);
    EncodeConcat(a, [t]);
    EncodeOne(t);
  }

  lemma ShortenCarries(d: seq<Byte>, d': seq<Byte>, tags: seq<Tag>, i: nat, p: nat, k: nat, m: nat, n: nat)
    requires Carries(d, tags) && i < |tags| && k <= |tags[i].data| && p == Offset(tags, i)
    requires m == |Encode(tags)| - k && n == |tags[i].data| - k
    requires p + TAG_HDR_LEN + k <= |d| && d' == Shortened(d, p, k, m, n)
    ensures Carries(d', WithShorter(tags, i, k)) && d'[..LENGTH_AT] == d[..LENGTH_AT]
  {
    var t := tags[i];
    EncodeShorter(tags, i, k);
    SizedShorter(tags, i, k);
    ShortenPayload(d, d', Encode(tags), Encode(WithShorter(tags, i, k)), Encode(tags[..i]), Be(t.kind), Be(|t.data|),
                   t.data[..k], t.data[k..], Encode(tags[i + 1..]), p, k, m, n);
  }

  /** The octets to take out of tag i lie in the packet, and the length field is the length of the list. */
  lemma DataFits(d: seq<Byte>, tags: seq<Tag>, i: nat, k: nat)
    requires Carries(d, tags) && i < |tags| && k <= |tags[i].data|
    ensures Offset(tags, i) + TAG_HDR_LEN + k <= |d| && k <= |Encode(tags)|
    ensures FromBe(d[LENGTH_AT..TAGS_AT]) == |Encode(tags)|
  {
    TagAt(d, tags, i);
    BeRoundTrip(|Encode(tags)|);
  }

  datatype Outcome = Done | Rejected | Undefined

  class Skb {
    const data: array<Byte>
    var len: nat

    ghost predicate Valid()
      reads this
    {
      TAGS_AT <= len <= data.Length < 0x1_0000
    }

    constructor (bytes: seq<Byte>, tailroom: nat)
      requires TAGS_AT <= |bytes| && |bytes| + tailroom < 0x1_0000
      ensures Valid() && fresh(data) && data.Length == |bytes| + tailroom && Bytes() == bytes
    {
      data := new Byte[|bytes| + tailroom](i => if 0 <= i < |bytes| then bytes[i] else 0);
      len := |bytes|;
    }

    /** The packet as it would be sent. */
    ghost function Bytes(): seq<Byte>
      requires Valid()
      reads this, data
    {
      data[..len]
    }

    /** __nat25_find_pppoe_tag for the relay tag, on any packet. */
    method FindRelay() returns (r: Found)
      requires Valid()
      ensures r == RelayFrom(Bytes(), TAGS_AT, TAGS_AT + FromBe(Bytes()[LENGTH_AT..TAGS_AT]))
    {
      var d := data[..len];
      var end := TAGS_AT + FromBe(d[LENGTH_AT..TAGS_AT]);
      var at := TAGS_AT;
      while at < end
        invariant RelayFrom(d, TAGS_AT, end) == RelayFrom(d, at, end)
        decreases end - at
      {
        if at + TAG_HDR_LEN > len {
          return Outside;
        }
        if FromBe(d[at..at + 2]) == PTT_RELAY_SID {
          return At(at);
        }
        at := at + TAG_HDR_LEN + FromBe(d[at + 2..at + 4]);
      }
      r := Nowhere;
    }

    /** memmove within the buffer; source and target may overlap. */
    method MemMove(dst: nat, src: nat, n: nat)
      requires dst + n <= data.Length && src + n <= data.Length
      modifies data
      ensures data[..] == Patched(old(data[..]), dst, old(data[src..src + n]))
    {
      forall i | 0 <= i < n {
        data[dst + i] := data[src + i];
      }
    }

    /** memcpy into the packet. */
    method Write(dst: nat, src: seq<Byte>)
      requires Valid() && dst + |src| <= len
      modifies data
      ensures Bytes() == Patched(old(Bytes()), dst, src)
    {
      CopyIn(data, dst, src);
    }

    /** skb_pull_and_merge: cuts n octets out of the packet. */
    method PullAndMerge(src: nat, n: nat) returns (ok: bool)
      requires Valid() && TAGS_AT <= src
      modifies `len, data
      ensures Valid() && ok == (src + n <= old(len))
      ensures Bytes() == if ok then old(Bytes())[..src] + old(Bytes())[src + n..] else old(Bytes())
    {
      if src + n > len || len < n {
        return false;
      }
      var tailLen := len - (src + n);
      if tailLen > 0 {
        MemMove(src, src + n, tailLen);
      }
      len := len - n;
      ok := true;
    }

    /** Cuts octets out of the payload and corrects the length field, as both directions do. */
    method CutOut(src: nat, n: nat)
      requires Valid() && TAGS_AT <= src && src + n <= len && n <= FromBe(Bytes()[LENGTH_AT..TAGS_AT])
      modifies `len, data
      ensures Valid()
      ensures Bytes() == Cut(old(Bytes()), src, n, FromBe(old(Bytes())[LENGTH_AT..TAGS_AT]) - n)
    {
      var d := data[..len];
      var length := FromBe(d[LENGTH_AT..TAGS_AT]);
      var ok := PullAndMerge(src, n);
      Write(LENGTH_AT, Be(length - n));
      CutIsPatched(d, src, n, length - n);
    }

    /** Takes the old relay tag out of the packet. */
    method CutTag(ghost tags: seq<Tag>, ghost i: nat, at: nat, n: nat)
      requires Valid() && Carries(Bytes(), tags) && i < |tags|
      requires at == Offset(tags, i) && n == TAG_HDR_LEN + |tags[i].data|
      modifies `len, data
      ensures Valid() && len == old(len) - n && Carries(Bytes(), tags[..i] + tags[i + 1..])
      ensures Bytes()[..LENGTH_AT] == old(Bytes())[..LENGTH_AT]
    {
      ghost var d := Bytes();
      TagAt(d, tags, i);
      BeRoundTrip(|Encode(tags)|);
      CutOut(at, n);
      CutCarries(d, Bytes(), tags, i, at, n, |Encode(tags)| - n);
    }

    /**
     __nat25_add_pppoe_tag. The length it works with is read from the tag's network-order field; on a
     little-endian host it is not the tag's length, and what is then copied is not defined here.
     */
    method AddTag(t: Tag, bigEndian: bool, ghost tags: seq<Tag>) returns (r: Outcome)
      requires Valid() && Carries(Bytes(), tags) && |t.data| < 0x1_0000
      modifies `len, data
      ensures Valid()
      ensures r == if data.Length - old(len) < AddedLength(bigEndian, |t.data|) then Rejected
                   else if AsRead(bigEndian, |t.data|) == |t.data| then Done else Undefined
      ensures r == Rejected ==> Bytes() == old(Bytes())
      ensures r == Done ==> Bytes()[..LENGTH_AT] == old(Bytes())[..LENGTH_AT] && Carries(Bytes(), [t] + tags)
    {
      var dataLen := AddedLength(bigEndian, |t.data|);
      if data.Length - len < dataLen {
        return Rejected;
      }
      if dataLen != TAG_HDR_LEN + |t.data| {
        return Undefined;
      }
      var d := data[..len];
      BeRoundTrip(|Encode(tags)|);
      var length := FromBe(d[LENGTH_AT..TAGS_AT]);
      PutFront(EncodeTag(t), length);
      AddCarries(d, Bytes(), t, tags);
      r := Done;
    }

    /** The copies, in the whole buffer. */
    method WriteFront(tag: seq<Byte>, length: nat)
      requires TAGS_AT + length + |tag| <= data.Length
      modifies data
      ensures data[..][..LENGTH_AT] == old(data[..])[..LENGTH_AT] && data[..][LENGTH_AT..TAGS_AT] == Be(length + |tag|)
      ensures data[..][TAGS_AT..TAGS_AT + |tag|] == tag
      ensures data[..][TAGS_AT + |tag|..TAGS_AT + |tag| + length] == old(data[..])[TAGS_AT..TAGS_AT + length]
    {
      FrontBytes(data[..], tag, length);
      MemMove(TAGS_AT + |tag|, TAGS_AT, length);
      CopyIn(data, LENGTH_AT, Be(length + |tag|));
      CopyIn(data, TAGS_AT, tag);
    }

    /** Makes room in front of the payload and writes a tag there. */
    method PutFront(tag: seq<Byte>, length: nat)
      requires Valid() && TAGS_AT + length <= len && len + |tag| <= data.Length
      modifies `len, data
      ensures Valid() && len == old(len) + |tag| && Bytes()[..LENGTH_AT] == old(Bytes())[..LENGTH_AT]
      ensures Bytes()[LENGTH_AT..TAGS_AT] == Be(length + |tag|)
      ensures Bytes()[TAGS_AT..TAGS_AT + |tag|] == tag
      ensures Bytes()[TAGS_AT + |tag|..TAGS_AT + |tag| + length] == old(Bytes())[TAGS_AT..TAGS_AT + length]
    {
      ghost var d := data[..];
      Prefix(d, len, 0, LENGTH_AT);
      Prefix(d, len, TAGS_AT, TAGS_AT + length);
      WriteFront(tag, length);
      len := len + |tag|;
      ghost var r := data[..];
      assert Bytes() == r[..len];
      Prefix(r, len, 0, LENGTH_AT);
      Prefix(r, len, LENGTH_AT, TAGS_AT);
      Prefix(r, len, TAGS_AT, TAGS_AT + |tag|);
      Prefix(r, len, TAGS_AT + |tag|, TAGS_AT + |tag| + length);
    }

    /** Where the first relay tag of a list is, and its data. */
    method OldTag(ghost tags: seq<Tag>) returns (found: bool, at: nat, t: seq<Byte>)
      requires Valid() && Carries(Bytes(), tags)
      ensures found == HasRelay(tags) && t == OldData(tags)
      ensures found ==> at == Offset(tags, RelayAt(tags))
    {
      RelayOfList(Bytes(), tags);
      var r := FindRelay();
      found, at, t := r.At?, 0, [];
      if found {
        at := r.at;
        t := DataAt(at, tags, RelayAt(tags));
      }
    }

    /** The data of the tag at `at`. */
    method DataAt(at: nat, ghost tags: seq<Tag>, ghost i: nat) returns (t: seq<Byte>)
      requires Valid() && Carries(Bytes(), tags) && i < |tags| && at == Offset(tags, i)
      ensures t == tags[i].data
    {
      var d := data[..len];
      TagFields(d, tags, i);
      var n := FromBe(d[at + 2..at + 4]);
      t := d[at + 4..at + 4 + n];
    }

    /** The client's own relay tag, if any, is taken out and its data kept. */
    method TakeOld(ghost tags: seq<Tag>) returns (fits: bool, was: seq<Byte>)
      requires Valid() && Carries(Bytes(), tags)
      modifies `len, data
      ensures Valid() && Bytes()[..LENGTH_AT] == old(Bytes())[..LENGTH_AT]
      ensures fits == Fits(tags) && (fits ==> was == OldData(tags))
      ensures !fits ==> len == old(len) && Carries(Bytes(), tags)
      ensures fits ==> Carries(Bytes(), WithoutRelay(tags))
      ensures fits ==> len == old(len) - if HasRelay(tags) then TAG_HDR_LEN + |was| else 0
    {
      fits, was := true, [];
      var found, at, t := OldTag(tags);
      if found {
        if |t| + TAG_HDR_LEN + MAGIC_CODE_LEN + RTL_RELAY_TAG_LEN > TAG_BUF_LEN {
          return false, was;
        }
        was := t;
        CutRelay(tags, at, |t|);
      }
    }

    method CutRelay(ghost tags: seq<Tag>, at: nat, n: nat)
      requires Valid() && Carries(Bytes(), tags) && HasRelay(tags)
      requires at == Offset(tags, RelayAt(tags)) && n == |tags[RelayAt(tags)].data|
      modifies `len, data
      ensures Valid() && Carries(Bytes(), WithoutRelay(tags)) && len == old(len) - (TAG_HDR_LEN + n)
      ensures Bytes()[..LENGTH_AT] == old(Bytes())[..LENGTH_AT]
    {
      CutTag(tags, RelayAt(tags), at, TAG_HDR_LEN + n);
    }

    /** Outgoing PADI or PADR with addPPPoETag set. */
    method InsertRelay(bigEndian: bool, ghost tags: seq<Tag>) returns (r: Outcome)
      requires Valid() && Carries(Bytes(), tags)
      modifies `len, data
      ensures Valid() && (r != Undefined ==> Bytes()[..LENGTH_AT] == old(Bytes())[..LENGTH_AT])
      ensures var client: Mac := old(Bytes())[ETH_ALEN..2 * ETH_ALEN];
              var room := data.Length - old(len) + if HasRelay(tags) then TAG_HDR_LEN + |OldData(tags)| else 0;
              && (r == Rejected <==> |OldData(tags)| > 28 || room < AddedLength(bigEndian, 8 + |OldData(tags)|))
              && (r == Done ==> bigEndian && Carries(Bytes(), Inserted(client, tags)))
              && (r == Undefined ==> !bigEndian)
              && (r == Rejected ==> Carries(Bytes(), if Fits(tags) then WithoutRelay(tags) else tags))
    {
      var d := data[..len];
      var client := d[ETH_ALEN..2 * ETH_ALEN];
      var fits, was := TakeOld(tags);
      if !fits {
        return Rejected;
      }
      r := AddTag(Tag(PTT_RELAY_SID, MAGIC + client + was), bigEndian, WithoutRelay(tags));
    }

    /** Incoming PADO or PADS with addPPPoETag set. */
    method StripRelay(ghost tags: seq<Tag>) returns (r: Outcome)
      requires Valid() && Carries(Bytes(), tags)
      modifies `len, data
      ensures Valid() && r == if Strip(tags).None? then Rejected else Done
      ensures Strip(tags).None? ==> Bytes() == old(Bytes())
      ensures Strip(tags).Some? ==>
                && Carries(Bytes(), Strip(tags).value.tags)
                && Bytes()[..LENGTH_AT] == Strip(tags).value.client + old(Bytes())[ETH_ALEN..LENGTH_AT]
    {
      var found, at, t := OldTag(tags);
      if !found {
        return Rejected;
      }
      if |t| < MAGIC_CODE_LEN + RTL_RELAY_TAG_LEN {
        return Rejected;
      }
      if t[..2] != MAGIC {
        return Rejected;
      }
      NewDestination(Bytes(), t[2..8], tags);
      Write(0, t[2..8]);
      TakeOut(tags, RelayAt(tags), at, |t|);
      r := Done;
    }

    /** Cuts octets out of the payload as `CutOut` does, and writes something in front of the gap. */
    method CutAndWrite(src: nat, n: nat, at: nat, b: seq<Byte>, ghost m: nat)
      requires Valid() && TAGS_AT <= at && at + |b| <= src && src + n <= len
      requires FromBe(Bytes()[LENGTH_AT..TAGS_AT]) == m + n
      modifies `len, data
      ensures Valid() && Bytes() == Patched(Cut(old(Bytes()), src, n, m), at, b)
    {
      CutOut(src, n);
      Write(at, b);
    }

    /** Takes the first k octets of a tag's data out. */
    method Shorten(ghost tags: seq<Tag>, ghost i: nat, at: nat, tagLen: nat, k: nat)
      requires Valid() && Carries(Bytes(), tags) && i < |tags| && k <= tagLen
      requires at == Offset(tags, i) && tagLen == |tags[i].data|
      modifies `len, data
      ensures Valid() && Carries(Bytes(), WithShorter(tags, i, k))
      ensures Bytes()[..LENGTH_AT] == old(Bytes())[..LENGTH_AT]
    {
      ghost var d := Bytes();
      DataFits(d, tags, i, k);
      CutAndWrite(at + TAG_HDR_LEN, k, at + 2, Be(tagLen - k), |Encode(tags)| - k);
      ShortenCarries(d, Bytes(), tags, i, at, k, |Encode(tags)| - k, tagLen - k);
    }

    /** Removes the driver's own octets from relay tag i: the whole tag, or the front of its data. */
    method TakeOut(ghost tags: seq<Tag>, ghost i: nat, at: nat, tagLen: nat)
      requires Valid() && Carries(Bytes(), tags) && i < |tags| && Ours(tags[i])
      requires at == Offset(tags, i) && tagLen == |tags[i].data|
      modifies `len, data
      ensures Valid() && Carries(Bytes(), tags[..i] + Remainder(tags[i]) + tags[i + 1..])
      ensures Bytes()[..LENGTH_AT] == old(Bytes())[..LENGTH_AT]
    {
      var offset := if tagLen > MAGIC_CODE_LEN + RTL_RELAY_TAG_LEN then TAG_HDR_LEN else 0;
      if offset > 0 {
        Shorten(tags, i, at, tagLen, MAGIC_CODE_LEN + RTL_RELAY_TAG_LEN);
      } else {
        CutTag(tags, i, at, TAG_HDR_LEN + tagLen);
        assert tags[..i] + [] + tags[i + 1..] == tags[..i] + tags[i + 1..];
      }
    }
  }
}
