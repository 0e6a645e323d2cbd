/**
 The traffic indication map of the beacon: the driver's compressed encoding of
 its station bitmap, and the reading of it by section 9.4.2.6 of IEEE Std
 802.11-2016. Bit 0 of the bitmap (AID 0) stands for group traffic.
 */
module Tim {

  import opened Octets

  const EID_TIM: Byte := 5
  const MAX_OCTETS: nat := 251
  /** The writer's parameter for the length of the bitmap is an octet. */
  const LONGEST: nat := 255

  // --------------------------------------------------------------- bits

  predicate BitOf(b: Byte, k: nat) {
    b / Pow(k) % 2 == 1
  }

  /** Two to the k. */
  function Pow(k: nat): (p: nat)
    ensures p > 0
  {
    if k == 0 then 1 else 2 * Pow(k - 1)
  }

  /** The bits of an octet are its binary digits, the lowest first. */
  lemma OctetIsItsBits(b: Byte)
    ensures b == Weight(b, 0, 1) + Weight(b, 1, 2) + Weight(b, 2, 4) + Weight(b, 3, 8)
                 + Weight(b, 4, 16) + Weight(b, 5, 32) + Weight(b, 6, 64) + Weight(b, 7, 128)
  {
    PowersOfTwo();
    LowBits(b);
    HighBits(b);
  }

  function Weight(b: Byte, k: nat, w: nat): (r: nat)
    ensures Pow(k) == w ==> r == b / w % 2 * w
  {
    if BitOf(b, k) then w else 0
  }

  lemma LowBits(b: Byte)
    ensures b % 16 == b / 1 % 2 * 1 + b / 2 % 2 * 2 + b / 4 % 2 * 4 + b / 8 % 2 * 8
  {
    assert b / 4 == b / 2 / 2 && b / 8 == b / 4 / 2;
  }

  lemma HighBits(b: Byte)
    ensures b - b % 16 == b / 16 % 2 * 16 + b / 32 % 2 * 32 + b / 64 % 2 * 64 + b / 128 % 2 * 128
  {
    assert b / 32 == b / 16 / 2 && b / 64 == b / 32 / 2 && b / 128 == b / 64 / 2;
  }

  lemma PowersOfTwo()
    ensures Pow(0) == 1 && Pow(1) == 2 && Pow(2) == 4 && Pow(3) == 8
    ensures Pow(4) == 16 && Pow(5) == 32 && Pow(6) == 64 && Pow(7) == 128
  {
    assert Pow(4) == 16;
  }

  /** The bit of an association id in the driver's bitmap. */
  predicate Marked(bmp: seq<Byte>, aid: nat) {
    aid / 8 < |bmp| && BitOf(bmp[aid / 8], aid % 8)
  }

  // ----------------------------------------------------------- encoding

  /** First nonzero octet, or the length if there is none. */
  function First(bmp: seq<Byte>): (i: nat)
    ensures i <= |bmp|
    ensures forall j :: 0 <= j < i ==> bmp[j] == 0
    ensures i < |bmp| ==> bmp[i] != 0
  {
    if bmp == [] || bmp[0] != 0 then 0 else 1 + First(bmp[1..])
  }

  /** Last nonzero octet, or 0 if there is none after octet 0. */
  function Last(bmp: seq<Byte>): (i: nat)
    requires bmp != []
    ensures i < |bmp|
    ensures forall j :: i < j < |bmp| ==> bmp[j] == 0
    ensures i > 0 ==> bmp[i] != 0
    decreases |bmp|
  {
    var n := |bmp| - 1;
    if n == 0 || bmp[n] != 0 then n else Last(bmp[..n])
  }

  function Even(i: nat): nat { i - i % 2 }

  /** First octet sent. */
  function Start(bmp: seq<Byte>): (s: nat)
    requires bmp != []
    ensures s % 2 == 0 && s <= Last(bmp)
  {
    if First(bmp) < |bmp| then
      assert First(bmp) > 0 ==> Last(bmp) >= First(bmp);
      Even(First(bmp))
    else 0
  }

  function Span(bmp: seq<Byte>): (n: nat)
    requires bmp != []
    ensures 1 <= n <= |bmp|
  {
    Last(bmp) - Start(bmp) + 1
  }

  /** The written element; its length field is an octet and wraps. */
  function Element(count: Byte, period: Byte, bmp: seq<Byte>): (ie: seq<Byte>)
    requires 1 <= |bmp| <= LONGEST
    ensures |ie| == 5 + Span(bmp)
  {
    [EID_TIM, (3 + Span(bmp)) % 256, count, period, Start(bmp) + bmp[0] % 2] + bmp[Start(bmp)..Last(bmp) + 1]
  }

  /** The writer, with its three scans; the result is an octet and wraps. */
  method SetTim(count: Byte, period: Byte, bmp: seq<Byte>) returns (ie: seq<Byte>, total: Byte)
    requires 1 <= |bmp| <= LONGEST
    ensures ie == Element(count, period, bmp)
    ensures total == |ie| % 256
  {
    var used := NotEmpty(bmp);
    var n1, n2, len := 0, 0, 1;
    if used {
      var i := 0;
      while i < |bmp| && bmp[i] == 0
        invariant i <= First(bmp)
      {
        i := i + 1;
      }
      n1 := i - i % 2;
      i := |bmp| - 1;
      while i > 0 && bmp[i] == 0
        invariant Last(bmp) <= i < |bmp|
      {
        i := i - 1;
      }
      n2 := i;
      len := n2 - n1 + 1;
    }
    var group := if bmp[0] % 2 == 1 then 1 else 0;
    var head: seq<Byte> := [EID_TIM, (2 + 1 + len) % 256, count, period, group + n1];
    ie := head + bmp[n1..n1 + len];
    total := (2 + 2 + 1 + len) % 256;
  }

  method NotEmpty(bmp: seq<Byte>) returns (r: bool)
    ensures r == (First(bmp) < |bmp|)
  {
    for i := 0 to |bmp|
      invariant i <= First(bmp)
    {
      if bmp[i] != 0 {
        return true;
      }
    }
    r := false;
  }

  // ----------------------------------------------------------- decoding

  /** Elements a receiver can read: the lengths agree and there is a bitmap. */
  predicate WellFormed(ie: seq<Byte>) {
    |ie| >= 6 && ie[0] == EID_TIM && ie[1] == |ie| - 2
  }

  predicate DecodedGroup(ie: seq<Byte>)
    requires WellFormed(ie)
  {
    ie[4] % 2 == 1
  }

  /** Octets outside the partial bitmap read as zero. */
  predicate DecodedStation(ie: seq<Byte>, aid: nat)
    requires WellFormed(ie)
  {
    var k := aid / 8 - Even(ie[4]);
    0 <= k < |ie| - 5 && BitOf(ie[5 + k], aid % 8)
  }

  lemma ZeroHasNoBits(k: nat)
    ensures !BitOf(0, k)
  {
  }

  /** The element's length field is right exactly up to 252 octets sent. */
  lemma WellFormedIff(count: Byte, period: Byte, bmp: seq<Byte>)
    requires 1 <= |bmp| <= LONGEST
    ensures WellFormed(Element(count, period, bmp)) <==> Span(bmp) <= 252
  {
  }

  /**
   The encoding loses nothing: whenever the length field is right, so for every bitmap of up to 251
   octets, a receiver reads the group bit and every station's bit.
   */
  lemma DecodesBack(count: Byte, period: Byte, bmp: seq<Byte>)
    requires 1 <= |bmp| <= LONGEST && Span(bmp) <= 252
    ensures var ie := Element(count, period, bmp);
            && WellFormed(ie) && ie[0] == 5 && ie[2] == count && ie[3] == period
            && (DecodedGroup(ie) <==> Marked(bmp, 0))
            && forall aid: nat :: DecodedStation(ie, aid) <==> Marked(bmp, aid)
  {
    var ie, s := Element(count, period, bmp), Start(bmp);
    assert Pow(0) == 1;
    assert Even(ie[4]) == s;
    forall aid: nat ensures DecodedStation(ie, aid) <==> Marked(bmp, aid) {
      var o := aid / 8;
      if s <= o <= Last(bmp) {
        assert ie[5 + o - s] == bmp[o];
      } else if o < |bmp| {
        assert bmp[o] == 0;
        ZeroHasNoBits(aid % 8);
      }
    }
  }

  /**
   The returned length is the number of octets written exactly when at most 250 octets of the bitmap
   are sent; with bitmaps of up to 251 octets, unless all 251 are.
   */
  lemma TotalRightIff(count: Byte, period: Byte, bmp: seq<Byte>)
    requires 1 <= |bmp| <= LONGEST
    ensures |Element(count, period, bmp)| % 256 == |Element(count, period, bmp)| <==> Span(bmp) <= 250
    ensures |bmp| <= MAX_OCTETS ==>
              (Span(bmp) <= 250 <==> !(|bmp| == MAX_OCTETS && (bmp[0] != 0 || bmp[1] != 0) && bmp[MAX_OCTETS - 1] != 0))
  {
  }

  // ------------------------------------------------------------ shortest

  /** The octets from a to b, a even, contain every nonzero one. */
  predicate Spans(bmp: seq<Byte>, a: nat, b: nat) {
    a % 2 == 0 && a <= b < |bmp| && forall j :: 0 <= j < |bmp| && bmp[j] != 0 ==> a <= j <= b
  }

  /** No shorter run of octets with an even start holds every set bit. */
  lemma Shortest(bmp: seq<Byte>, a: nat, b: nat)
    requires bmp != [] && Spans(bmp, a, b)
    ensures Spans(bmp, Start(bmp), Last(bmp))
    ensures Span(bmp) <= b - a + 1
  {
  }

  /** N1 of the standard: even, and no station bit stands before octet n. */
  predicate Skips(bmp: seq<Byte>, n: nat) {
    n % 2 == 0 && n < |bmp| && (n > 0 ==> bmp[0] <= 1) && forall j :: 1 <= j < n ==> bmp[j] == 0
  }

  ghost predicate IsN1(bmp: seq<Byte>, n: nat) {
    Skips(bmp, n) && forall m: nat :: Skips(bmp, m) ==> m <= n
  }

  /** Some station, not only the group, has traffic. */
  predicate StationWaits(bmp: seq<Byte>)
    requires bmp != []
  {
    bmp[0] > 1 || Last(bmp) > 0
  }

  /**
   The first octet sent is the standard's N1 except when octet 0 holds the group
   bit alone and octet 1 is zero: then the driver sends from octet 0 where the
   standard starts later. When no station waits, one octet is sent from offset 0,
   as the standard asks.
   */
  lemma StartIsN1Iff(bmp: seq<Byte>)
    requires bmp != []
    ensures StationWaits(bmp) ==> (IsN1(bmp, Start(bmp)) <==> !(bmp[0] == 1 && |bmp| > 1 && bmp[1] == 0))
    ensures !StationWaits(bmp) ==> Start(bmp) == 0 && Span(bmp) == 1
  {
    if !StationWaits(bmp) {
      return;
    }
    var s := Start(bmp);
    assert First(bmp) < |bmp|;
    if bmp[0] == 1 && bmp[1] == 0 {
      assert |bmp| > 2 && Last(bmp) >= 2;
      assert Skips(bmp, 2) && !(2 <= s);
    } else {
      assert Skips(bmp, s);
      var f := First(bmp);
      forall m: nat | Skips(bmp, m) ensures m <= s {
        assert !(1 <= f < m);
      }
    }
  }
}
