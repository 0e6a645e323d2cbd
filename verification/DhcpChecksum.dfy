/**
 The DHCP broadcast-flag rewrite of the NAT2.5 bridge and its incremental
 update of the UDP checksum (section 3 of RFC 1624, with the old flags taken
 to be zero).

 A datagram is the sequence of its 16-bit words as the host reads them,
 pseudo header included. It checks out when its one's-complement sum is all
 ones, that is, when the plain sum is a positive multiple of 65535.
 */
module DhcpChecksum {

  import opened Octets

  const ONES: nat := 0xFFFF

  function Sum(ws: seq<Word>): nat {
    if ws == [] then 0 else ws[0] + Sum(ws[1..])
  }

  predicate ChecksOut(ws: seq<Word>) {
    Sum(ws) % ONES == 0
  }

  /** The one's-complement value of a sum: what folding its carries ends in. */
  function Folded(x: nat): (r: Word)
    ensures r % ONES == x % ONES
    ensures r == 0 <==> x == 0
  {
    if x == 0 then 0 else (x - 1) % ONES + 1
  }

  lemma FoldOnce(x: nat)
    requires x >= 0x1_0000
    ensures x % 0x1_0000 + x / 0x1_0000 < x
    ensures Folded(x % 0x1_0000 + x / 0x1_0000) == Folded(x)
  {
    var q, r := x / 0x1_0000, x % 0x1_0000;
    assert x - 1 == (r + q - 1) + ONES * q;
    ModShift(r + q - 1, q);
  }

  lemma ModShift(a: int, q: int)
    ensures (a + ONES * q) % ONES == a % ONES
  {
  }

  /** The carry-folding loop. */
  method Fold(x: nat) returns (sum: Word)
    ensures sum == Folded(x)
  {
    var s := x;
    while s / 0x1_0000 != 0
      invariant Folded(s) == Folded(x)
      decreases s
    {
      FoldOnce(s);
      s := s % 0x1_0000 + s / 0x1_0000;
    }
    sum := s;
  }

  /** The broadcast flag as the host sees it in a network-order word. */
  function BroadcastBit(bigEndian: bool): Word {
    if bigEndian then 0x8000 else 0x0080
  }

  /** The two octets of a word in memory. */
  function InMemory(w: Word, bigEndian: bool): seq<Byte> {
    if bigEndian then [w / 256, w % 256] else [w % 256, w / 256]
  }

  /** On either host the broadcast flag is the top bit of the first octet of the flags; setting it keeps the others. */
  lemma FlagInOctets(w: Word, bigEndian: bool)
    ensures HasBit(w, BroadcastBit(bigEndian)) <==> InMemory(w, bigEndian)[0] >= 128
    ensures InMemory(w, bigEndian)[0] < 128 ==>
              var v: int := w + BroadcastBit(bigEndian);
              && v < 0x1_0000
              && InMemory(v, bigEndian) == [InMemory(w, bigEndian)[0] + 128, InMemory(w, bigEndian)[1]]
  {
    if bigEndian {
      HighBit(w);
    } else {
      LowBit(w);
    }
  }

  lemma HighBit(w: Word)
    ensures (w / 0x8000) % 2 == 1 <==> w / 256 >= 128
    ensures w / 256 < 128 ==> (w + 0x8000) / 256 == w / 256 + 128 && (w + 0x8000) % 256 == w % 256
  {
  }

  lemma LowBit(w: Word)
    ensures (w / 0x80) % 2 == 1 <==> w % 256 >= 128
    ensures w % 256 < 128 ==> (w + 0x80) / 256 == w / 256 && (w + 0x80) % 256 == w % 256 + 128
  {
  }

  predicate HasBit(w: Word, bit: Word)
    requires bit > 0
  {
    (w / bit) % 2 == 1
  }

  lemma BitFits(w: Word, bigEndian: bool)
    requires !HasBit(w, BroadcastBit(bigEndian))
    ensures w + BroadcastBit(bigEndian) < 0x1_0000
  {
  }

  /** The new checksum the driver computes from the old one and the new flags. */
  function Updated(check: Word, flags: Word): Word {
    ONES - Folded((ONES - check) + flags)
  }

  /** The datagram after dhcp_flag_bcast, with the checksum at position c and the flags at position g. */
  function Flagged(ws: seq<Word>, c: nat, g: nat, bigEndian: bool): (r: seq<Word>)
    requires c < |ws| && g < |ws| && c != g
    ensures |r| == |ws|
  {
    var bit := BroadcastBit(bigEndian);
    if HasBit(ws[g], bit) then ws
    else
      BitFits(ws[g], bigEndian);
      ws[g := ws[g] + bit][c := Updated(ws[c], ws[g] + bit)]
  }

  /** dhcp_flag_bcast on a DHCP request, in place. */
  method FlagBroadcast(udp: array<Word>, c: nat, g: nat, bigEndian: bool)
    requires c < udp.Length && g < udp.Length && c != g
    modifies udp
    ensures udp[..] == Flagged(old(udp[..]), c, g, bigEndian)
    ensures forall k :: 0 <= k < udp.Length && k != c && k != g ==> udp[k] == old(udp[k])
    ensures var was, now := InMemory(old(udp[g]), bigEndian), InMemory(udp[g], bigEndian);
            now == if was[0] < 128 then [was[0] + 128, was[1]] else was
    ensures InMemory(old(udp[g]), bigEndian)[0] >= 128 ==> udp[c] == old(udp[c])
  {
    FlagInOctets(udp[g], bigEndian);
    var bit := BroadcastBit(bigEndian);
    if !HasBit(udp[g], bit) {
      BitFits(udp[g], bigEndian);
      udp[g] := udp[g] + bit;
      var sum := Fold((ONES - udp[c]) + udp[g]);
      udp[c] := ONES - sum;
    }
  }

  // ------------------------------------------------------------- what it means

  lemma {:induction false} SumUpdate(ws: seq<Word>, i: nat, w: Word)
    requires i < |ws|
    ensures Sum(ws[i := w]) == Sum(ws) - ws[i] + w
  {
    if i > 0 {
      SumUpdate(ws[1..], i - 1, w);
      assert ws[i := w][1..] == ws[1..][i - 1 := w];
    } else {
      assert ws[0 := w][1..] == ws[1..];
    }
  }

  lemma SumOfBoth(ws: seq<Word>, c: nat, g: nat, f: Word, w: Word)
    requires c < |ws| && g < |ws| && c != g
    ensures Sum(ws[g := f][c := w]) + ws[g] == Sum(ws) + f - ws[c] + w
  {
    SumUpdate(ws, g, f);
    SumUpdate(ws[g := f], c, w);
  }

  lemma FoldShift(x: nat)
    ensures Folded(x) <= x && x - Folded(x) == ONES * ((x - Folded(x)) / ONES)
  {
  }

  /** The rewrite changes the sum by the old flags word, up to multiples of 65535. */
  lemma SumShift(ws: seq<Word>, c: nat, g: nat, bigEndian: bool)
    requires c < |ws| && g < |ws| && c != g && !HasBit(ws[g], BroadcastBit(bigEndian))
    ensures (Sum(Flagged(ws, c, g, bigEndian)) + ws[g]) % ONES == Sum(ws) % ONES
  {
    BitFits(ws[g], bigEndian);
    var f := ws[g] + BroadcastBit(bigEndian);
    SumOfBoth(ws, c, g, f, Updated(ws[c], f));
    FoldShift(ONES - ws[c] + f);
    ModShift(Sum(ws), (ONES - ws[c] + f - Folded(ONES - ws[c] + f)) / ONES);
  }

  /**
   A datagram that checks out still does after the rewrite exactly when its old flags word was zero
   (or the flag was already set and nothing was written).
   */
  lemma ChecksumKept(ws: seq<Word>, c: nat, g: nat, bigEndian: bool)
    requires c < |ws| && g < |ws| && c != g && ChecksOut(ws)
    ensures ChecksOut(Flagged(ws, c, g, bigEndian)) <==> ws[g] == 0 || HasBit(ws[g], BroadcastBit(bigEndian))
  {
    if !HasBit(ws[g], BroadcastBit(bigEndian)) {
      SumShift(ws, c, g, bigEndian);
      AddToMultiple(Sum(Flagged(ws, c, g, bigEndian)), ws[g]);
    }
  }

  /** An instance: a valid datagram with a reserved flag bit set is no longer valid. */
  lemma NonzeroFlagsBreak(bigEndian: bool)
    ensures var ws: seq<Word> := [0xFFFE, 0x0001];
            ChecksOut(ws) && !ChecksOut(Flagged(ws, 0, 1, bigEndian))
  {
    var ws: seq<Word> := [0xFFFE, 0x0001];
    assert ws[1..] == [0x0001] && ws[1..][1..] == [];
    assert Sum(ws) == ONES;
    ChecksumKept(ws, 0, 1, bigEndian);
  }

  /** A checksum equal to the new flags becomes zero, which UDP reads as "no checksum" (RFC 768). */
  lemma ZeroResult(check: Word, flags: Word)
    requires 0 < flags
    ensures Updated(check, flags) == 0 <==> check == flags || (check == 0 && flags == ONES)
  {
  }

  lemma AddToMultiple(s: nat, w: nat)
    requires w < ONES
    ensures (s + w) % ONES == w <==> s % ONES == 0
  {
  }

  /** When the rewritten datagram checks out, by the sum of the old one. */
  lemma ValidAfter(ws: seq<Word>, c: nat, g: nat, bigEndian: bool)
    requires c < |ws| && g < |ws| && c != g && !HasBit(ws[g], BroadcastBit(bigEndian))
    ensures ChecksOut(Flagged(ws, c, g, bigEndian)) <==> Sum(ws) % ONES == ws[g]
  {
    BitFits(ws[g], bigEndian);
    SumShift(ws, c, g, bigEndian);
    AddToMultiple(Sum(Flagged(ws, c, g, bigEndian)), ws[g]);
  }

  lemma NewCheck(ws: seq<Word>, c: nat, g: nat, bigEndian: bool)
    requires c < |ws| && g < |ws| && c != g && !HasBit(ws[g], BroadcastBit(bigEndian))
    requires ws[g] + BroadcastBit(bigEndian) < 0x1_0000
    ensures Flagged(ws, c, g, bigEndian)[c] == Updated(ws[c], ws[g] + BroadcastBit(bigEndian))
  {
  }

  /**
   A datagram sent without a checksum gets one, unless its new flags are all ones: the rewrite does not look
   whether the checksum was in use.
   */
  lemma UnusedBecomesUsed(ws: seq<Word>, c: nat, g: nat, bigEndian: bool)
    requires c < |ws| && g < |ws| && c != g && ws[c] == 0 && !HasBit(ws[g], BroadcastBit(bigEndian))
    ensures Flagged(ws, c, g, bigEndian)[c] != 0 <==> ws[g] + BroadcastBit(bigEndian) != ONES
    ensures ChecksOut(Flagged(ws, c, g, bigEndian)) <==> Sum(ws) % ONES == ws[g]
  {
    ValidAfter(ws, c, g, bigEndian);
    BitFits(ws[g], bigEndian);
    NewCheck(ws, c, g, bigEndian);
    ZeroResult(0, ws[g] + BroadcastBit(bigEndian));
  }

  // ------------------------------------------------------------- byte order

  function SwapAll(ws: seq<Word>): (r: seq<Word>)
    ensures |r| == |ws|
  {
    if ws == [] then [] else [Swapped(ws[0])] + SwapAll(ws[1..])
  }

  lemma SwapIsTimes256(w: Word)
    ensures Swapped(w) % ONES == (256 * w) % ONES
  {
    var hi, lo := w / 256, w % 256;
    assert 256 * w == Swapped(w) + ONES * hi;
    ModShift(Swapped(w), hi);
  }

  lemma {:induction false} SwapSum(ws: seq<Word>)
    ensures Sum(SwapAll(ws)) % ONES == (256 * Sum(ws)) % ONES
  {
    if ws != [] {
      SwapSum(ws[1..]);
      SwapIsTimes256(ws[0]);
      var a, b := Swapped(ws[0]), Sum(SwapAll(ws[1..]));
      var p: nat, q: nat := 256 * (ws[0] as int), 256 * Sum(ws[1..]);
      assert SwapAll(ws)[1..] == SwapAll(ws[1..]);
      AddMod(a, b, p, q);
    }
  }

  lemma AddMod(a: nat, b: nat, p: nat, q: nat)
    requires a % ONES == p % ONES && b % ONES == q % ONES
    ensures (a + b) % ONES == (p + q) % ONES
  {
    var k := (a / ONES + b / ONES) - (p / ONES + q / ONES);
    assert a + b == (p + q) + ONES * k;
    ModShift(p + q, k);
  }

  /** Whether a datagram checks out does not depend on the byte order it is read in. */
  lemma ByteOrderIrrelevant(ws: seq<Word>)
    ensures ChecksOut(SwapAll(ws)) <==> ChecksOut(ws)
  {
    SwapSum(ws);
    var s := Sum(ws);
    if s % ONES == 0 {
      assert 256 * s == 0 + ONES * (256 * (s / ONES));
      ModShift(0, 256 * (s / ONES));
    }
    if (256 * s) % ONES == 0 {
      var k := (256 * s) / ONES;
      assert 256 * (256 * s) == 256 * (ONES * k);
      assert 256 * (256 * s) == s + ONES * s;
      ModShift(s, s);
      ModShift(0, 256 * k);
    }
  }
}
