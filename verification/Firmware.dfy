/**
 Firmware download: the patch is cut into fragments of 252 bytes, each sent
 with a wrapping seven-bit index; the last one carries the bit DATA_END.
 */
module Firmware {

  import opened Octets

  const SEGMENT: nat := 252        // PATCH_SEG_MAX
  const DATA_END: nat := 0x80
  const CMD_HDR_LEN: nat := 3

  /** One download command: index, payload, announced parameter length, packet length. */
  datatype Fragment = Fragment(index: Byte, data: seq<Byte>, plen: nat, pktLen: nat)

  datatype Outcome = Done(length: nat) | Failed

  function Count(length: nat): nat {
    length / SEGMENT + 1
  }

  /** The index the driver computes for fragment i, before DATA_END is put in. */
  function RawIndex(i: nat): Byte {
    if i > 0x7f then i % 128 + 1 else i
  }

  /** The intended numbering: 0, then 1 to 127 over and over. */
  function Cycle(i: nat): (r: nat)
    ensures r < 128
  {
    if i == 0 then 0 else (i - 1) % 127 + 1
  }

  /** OR with the top bit of an octet. */
  function WithEnd(b: Byte): Byte {
    if b < DATA_END then b + DATA_END else b
  }

  predicate IsEnd(f: Fragment) {
    f.index >= DATA_END
  }

  function Payloads(fs: seq<Fragment>): seq<Byte> {
    if fs == [] then [] else Payloads(fs[..|fs| - 1]) + fs[|fs| - 1].data
  }

  /** Fragment i of a download. */
  function FragmentAt(fw: seq<Byte>, i: nat): Fragment
    requires i < Count(|fw|)
  {
    var last := i == |fw| / SEGMENT;
    var n := if last then |fw| % SEGMENT else SEGMENT;
    Fragment(if last then WithEnd(RawIndex(i)) else RawIndex(i),
             fw[i * SEGMENT..i * SEGMENT + n], 1 + n, CMD_HDR_LEN + 1 + n)
  }

  function Fragments(fw: seq<Byte>): (fs: seq<Fragment>)
    ensures |fs| == Count(|fw|)
    ensures forall i :: 0 <= i < |fs| ==> fs[i] == FragmentAt(fw, i)
  {
    seq(Count(|fw|), i requires 0 <= i < Count(|fw|) => FragmentAt(fw, i))
  }

  lemma FrontGrows(fw: seq<Byte>, a: nat, b: nat)
    requires a <= b <= |fw|
    ensures fw[..a] + fw[a..b] == fw[..b]
  {
  }

  /** The first k payloads are the front of the firmware. */
  lemma {:induction false} PayloadsAreFront(fw: seq<Byte>, k: nat)
    requires k <= Count(|fw|)
    ensures Payloads(Fragments(fw)[..k]) == if k * SEGMENT <= |fw| then fw[..k * SEGMENT] else fw
  {
    if k > 0 {
      PayloadsAreFront(fw, k - 1);
      var fs, f := Fragments(fw)[..k], FragmentAt(fw, k - 1);
      assert fs[..k - 1] == Fragments(fw)[..k - 1] && fs[k - 1] == f;
      FrontGrows(fw, (k - 1) * SEGMENT, (k - 1) * SEGMENT + |f.data|);
    }
  }

  /** The payloads put together are the firmware, whatever its length. */
  lemma PayloadsAreFirmware(fw: seq<Byte>)
    ensures Payloads(Fragments(fw)) == fw
    ensures forall i :: 0 <= i < Count(|fw|) ==>
              |Fragments(fw)[i].data| == Fragments(fw)[i].plen - 1 == Fragments(fw)[i].pktLen - 4
  {
    PayloadsAreFront(fw, Count(|fw|));
    assert Fragments(fw)[..Count(|fw|)] == Fragments(fw);
  }

  /**
   The download loop; the controller acknowledges the first `accepted` fragments
   and refuses the next one. Every read of the firmware is in bounds.
   */
  method Download(fw: seq<Byte>, accepted: nat) returns (sent: seq<Fragment>, r: Outcome)
    ensures r == if accepted >= Count(|fw|) then Done(|fw|) else Failed
    ensures sent == if r.Done? then Fragments(fw) else Fragments(fw)[..accepted + 1]
  {
    sent := [];
    var pcur, fragLen, pktLen := 0, SEGMENT, CMD_HDR_LEN + 1 + SEGMENT;
    var fragNum := |fw| / SEGMENT + 1;
    var i := 0;
    while i < fragNum
      invariant i <= fragNum && i <= accepted
      invariant i < fragNum ==> pcur == i * SEGMENT && fragLen == SEGMENT
      invariant i < fragNum ==> pktLen == CMD_HDR_LEN + 1 + SEGMENT
      invariant sent == Fragments(fw)[..i]
    {
      var index: Byte := if i > 0x7f then i % 128 + 1 else i;
      if i == fragNum - 1 {
        index := WithEnd(index);
        fragLen := |fw| % SEGMENT;
        pktLen := pktLen - (SEGMENT - fragLen);
      }
      sent := sent + [Fragment(index, fw[pcur..pcur + fragLen], 1 + fragLen, pktLen)];
      assert sent[i] == FragmentAt(fw, i);
      if i == accepted {
        return sent, Failed;
      }
      pcur := pcur + SEGMENT;
      i := i + 1;
    }
    r := Done(|fw|);
  }

  /** The raw index follows the cycle as far as fragment 254; at 255 it leaves it. */
  lemma RawIndexIsCycle(i: nat)
    requires i < 255
    ensures RawIndex(i) == Cycle(i) < DATA_END
  {
  }

  predicate Numbered(fs: seq<Fragment>) {
    forall i :: 0 <= i < |fs| ==> fs[i].index == Cycle(i) + if i == |fs| - 1 then DATA_END else 0
  }

  /** All indices are the intended ones exactly for firmware shorter than 64260 bytes. */
  lemma NumberedIff(fw: seq<Byte>)
    ensures Numbered(Fragments(fw)) <==> |fw| < 64260
  {
    var fs := Fragments(fw);
    if |fw| < 64260 {
      forall i | 0 <= i < |fs| ensures fs[i].index == Cycle(i) + if i == |fs| - 1 then DATA_END else 0 {
        RawIndexIsCycle(i);
      }
    } else {
      assert fs[255].index == DATA_END && Cycle(255) == 1;
    }
  }

  /** DATA_END marks the last fragment and no other exactly for firmware shorter than 64512 bytes. */
  lemma EndMarksLastIff(fw: seq<Byte>)
    ensures var fs := Fragments(fw);
            && IsEnd(fs[|fs| - 1])
            && ((forall i :: 0 <= i < |fs| ==> (IsEnd(fs[i]) <==> i == |fs| - 1)) <==> |fw| < 64512)
  {
    var fs := Fragments(fw);
    if |fw| < 64512 {
      forall i | 0 <= i < |fs| ensures IsEnd(fs[i]) <==> i == |fs| - 1 {
        if i < 255 {
          RawIndexIsCycle(i);
        }
      }
    } else {
      assert IsEnd(fs[255]) && 255 != |fs| - 1;
    }
  }

  // ----------------------------------------------------- what chips allow

  datatype Chip =
    | Previous | Rtl8822BU | Rtl8723DU | Rtl8822CU | Rtl8761BU | Rtl8821CU
    | Rtl8852AU | Rtl8723FU | Rtl8852BU | Rtl8852CU | Rtl8822EU | Other

  function MaxPatchSize(chip: Chip): nat {
    match chip
    case Previous => 24 * 1024
    case Rtl8822BU => 25 * 1024
    case Rtl8723DU => 40 * 1024
    case Rtl8822CU => 40 * 1024
    case Rtl8761BU => 40 * 1024
    case Rtl8821CU => 40 * 1024
    case Rtl8852AU => 0x114D0 + 529
    case Rtl8723FU => 0xC4CF + 529
    case Rtl8852BU => 0x104D0 + 529
    case Rtl8852CU => 0x130D0 + 529
    case Rtl8822EU => 0x24620 + 529
    case Other => 40 * 1024
  }

  /** The size limit keeps every download rightly numbered on exactly the other chips. */
  lemma LimitKeepsNumbering(chip: Chip)
    ensures (forall fw :: |fw| <= MaxPatchSize(chip) ==> Numbered(Fragments(fw)))
            <==> chip !in {Rtl8852AU, Rtl8852BU, Rtl8852CU, Rtl8822EU}
  {
    if chip in {Rtl8852AU, Rtl8852BU, Rtl8852CU, Rtl8822EU} {
      var fw := seq(64260, _ => 0);
      NumberedIff(fw);
      assert |fw| <= MaxPatchSize(chip) && !Numbered(Fragments(fw));
    } else {
      forall fw | |fw| <= MaxPatchSize(chip) ensures Numbered(Fragments(fw)) {
        NumberedIff(fw);
      }
    }
  }
}
