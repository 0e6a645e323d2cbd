/** The beacon's element buffer: twelve octets of fixed fields, then the elements, edited by splicing. */
module BeaconBuffer {

  import opened BeaconElements
  import opened Buffers
  import opened Octets

  const FIXED: nat := 12

  predicate Sized(e: seq<Element>) {
    forall x :: x in e ==> |x.data| < 256
  }

  function Bytes(x: Element): (b: seq<Byte>)
    requires |x.data| < 256
    ensures |b| == 2 + |x.data|
  {
    [x.id, |x.data|] + x.data
  }

  function Encode(e: seq<Element>): seq<Byte>
    requires Sized(e)
    decreases |e|
  {
    if e == [] then [] else Bytes(e[0]) + Encode(e[1..])
  }

  lemma {:induction false} EncodeConcat(a: seq<Element>, b: seq<Element>)
    requires Sized(a) && Sized(b)
    ensures Sized(a + b) && Encode(a + b) == Encode(a) + Encode(b)
    decreases |a|
  {
    if a == [] {
      assert a + b == b;
    } else {
      EncodeConcat(a[1..], b);
      assert (a + b)[1..] == a[1..] + b;
      assert Bytes(a[0]) + (Encode(a[1..]) + Encode(b)) == (Bytes(a[0]) + Encode(a[1..])) + Encode(b);
    }
  }

  /** An element in the buffer: ID, length, data; the first one stands behind the twelve fixed octets. */
  lemma ElementOctets(x: Element, e: seq<Element>)
    requires |x.data| < 256 && Sized(e)
    ensures Sized([x] + e) && Encode([x] + e) == [x.id, |x.data|] + x.data + Encode(e)
    ensures Offset([x] + e, 0) == 12
  {
    EncodeConcat([x], e);
    EncodeOne(x);
    assert ([x] + e)[..0] == [];
  }

  lemma EncodeOne(x: Element)
    requires |x.data| < 256
    ensures Sized([x]) && Encode([x]) == Bytes(x)
  {
  }

  lemma EncodeMiddle(a: seq<Element>, x: Element, b: seq<Element>)
    requires Sized(a) && Sized(b) && |x.data| < 256
    ensures Sized(a + [x] + b) && Encode(a + [x] + b) == Encode(a) + Bytes(x) + Encode(b)
  {
    EncodeOne(x);
    EncodeConcat(a, [x]);
    EncodeConcat(a + [x], b);
  }

  /** Where element k starts. */
  function Offset(e: seq<Element>, k: nat): nat
    requires Sized(e) && k <= |e|
  {
    FIXED + |Encode(e[..k])|
  }

  /** The buffer content s around element k. */
  lemma Around(s: seq<Byte>, fixed: seq<Byte>, e: seq<Element>, k: nat)
    requires |fixed| == FIXED && Sized(e) && s == fixed + Encode(e) && k < |e|
    ensures var p := Offset(e, k);
            && Sized(e[..k]) && Sized(e[k + 1..])
            && Offset(e, k + 1) == p + 2 + |e[k].data| <= |s|
            && s[p] == e[k].id && s[p + 1] == |e[k].data|
            && s[..p] == fixed + Encode(e[..k])
            && s[p + 2 + |e[k].data|..] == Encode(e[k + 1..])
  {
    assert e == e[..k] + [e[k]] + e[k + 1..] && e[k] in e;
    EncodeMiddle(e[..k], e[k], e[k + 1..]);
    InFrame(s, fixed, Encode(e[..k]), Bytes(e[k]), Encode(e[k + 1..]));
    OffsetStep(e, k);
  }

  lemma InFrame(s: seq<Byte>, f: seq<Byte>, a: seq<Byte>, b: seq<Byte>, c: seq<Byte>)
    requires s == f + (a + b + c)
    ensures s[..|f| + |a|] == f + a && s[|f| + |a| + |b|..] == c
    ensures forall i :: 0 <= i < |b| ==> s[|f| + |a| + i] == b[i]
  {
    Regroup(f, a, b, c);
    Middle(s, f + a, b, c);
  }

  lemma OffsetStep(e: seq<Element>, k: nat)
    requires Sized(e) && k < |e|
    ensures Offset(e, k + 1) == Offset(e, k) + 2 + |e[k].data|
  {
    assert e[..k + 1] == e[..k] + [e[k]] && e[k] in e;
    EncodeOne(e[k]);
    EncodeConcat(e[..k], [e[k]]);
  }

  lemma Middle(s: seq<Byte>, a: seq<Byte>, b: seq<Byte>, c: seq<Byte>)
    requires s == a + b + c
    ensures s[..|a|] == a && s[|a| + |b|..] == c
    ensures forall i :: 0 <= i < |b| ==> s[|a| + i] == b[i]
  {
  }

  lemma OffsetEnd(e: seq<Element>)
    requires Sized(e)
    ensures Offset(e, |e|) == FIXED + |Encode(e)| && Offset(e, 0) == FIXED
  {
    assert e[..|e|] == e;
  }

  lemma {:induction false} OffsetsGrow(s: seq<Byte>, fixed: seq<Byte>, e: seq<Element>, k: nat)
    requires |fixed| == FIXED && Sized(e) && s == fixed + Encode(e) && k <= |e|
    ensures Offset(e, k) <= |s| && (Offset(e, k) < |s| <==> k < |e|)
  {
    if k < |e| {
      Around(s, fixed, e, k);
    } else {
      OffsetEnd(e);
    }
  }

  /** Where an added element goes, and how many octets it takes the place of. */
  function Place(e: seq<Element>, id: Byte): nat
    requires Sized(e)
  {
    Offset(e, Slot(e, id))
  }

  function Displaced(e: seq<Element>, id: Byte): nat {
    if Match(e, id) then 2 + |e[Slot(e, id)].data| else 0
  }

  /** By how much adding x lengthens the elements. */
  function Growth(e: seq<Element>, x: Element): int {
    if Acts(e, x.id) then 2 + |x.data| - Displaced(e, x.id) else 0
  }

  /** The scan of add: the last element looked at, its length, and whether it is a match. */
  datatype Scan = Scan(found: bool, p: nat, ielen: nat, bmatch: bool)

  class Beacon {
    const ies: array<Byte>
    var ieLength: nat

    ghost predicate Valid()
      reads this
    {
      ieLength <= ies.Length
    }

    ghost function Content(): seq<Byte>
      requires Valid()
      reads this, ies
    {
      ies[..ieLength]
    }

    /** The buffer holds the fixed fields and these elements. */
    ghost predicate Holds(fixed: seq<Byte>, e: seq<Element>)
      reads this, ies
    {
      && Valid() && |fixed| == FIXED && Sized(e)
      && Content() == fixed + Encode(e)
    }

    /** A beacon whose buffer is filled already. */
    constructor (ies: array<Byte>, ieLength: nat)
      requires ieLength <= ies.Length
      ensures this.ies == ies && this.ieLength == ieLength && Valid()
    {
      this.ies, this.ieLength := ies, ieLength;
    }

    method ScanForSlot(id: Byte, ghost fixed: seq<Byte>, ghost e: seq<Element>) returns (r: Scan)
      requires Holds(fixed, e)
      ensures r.found == (Anchor(e, id) >= 0)
      ensures r.found ==> r.p == Offset(e, Anchor(e, id)) && r.ielen == |e[Anchor(e, id)].data|
      ensures r.found ==> r.bmatch == Match(e, id)
    {
      r := Scan(false, 0, 0, false);
      var i := FIXED;
      ghost var k: nat := 0;
      OffsetEnd(e);
      while i < ieLength
        invariant k <= Slot(e, id) && i == Offset(e, k)
        invariant r.found == (k > 0) && !r.bmatch
        invariant r.found ==> r.p == Offset(e, k - 1) && r.ielen == |e[k - 1].data|
        decreases |e| - k
      {
        OffsetsGrow(Content(), fixed, e, k);
        Around(Content(), fixed, e, k);
        assert ies[i] == Content()[i] && ies[i + 1] == Content()[i + 1];
        if ies[i] > id {
          break;
        } else if ies[i] == id {
          r := Scan(true, i, ies[i + 1], true);
          return;
        }
        r := Scan(true, i, ies[i + 1], false);
        i, k := i + 2 + ies[i + 1], k + 1;
      }
      OffsetsGrow(Content(), fixed, e, k);
      assert k == Slot(e, id);
    }

    /** The first element with this ID, as `rtw_get_ie` looks for it. */
    method GetIe(id: Byte, ghost fixed: seq<Byte>, ghost e: seq<Element>) returns (r: Scan)
      requires Holds(fixed, e)
      ensures r.found == (Find(e, id) < |e|)
      ensures r.found ==> r.p == Offset(e, Find(e, id)) && r.ielen == |e[Find(e, id)].data|
    {
      var i := FIXED;
      ghost var k: nat := 0;
      OffsetEnd(e);
      while i < ieLength
        invariant k <= Find(e, id) && i == Offset(e, k)
        decreases |e| - k
      {
        OffsetsGrow(Content(), fixed, e, k);
        Around(Content(), fixed, e, k);
        assert ies[i] == Content()[i] && ies[i + 1] == Content()[i + 1];
        if ies[i] == id {
          r := Scan(true, i, ies[i + 1], true);
          return;
        }
        i, k := i + 2 + ies[i + 1], k + 1;
      }
      OffsetsGrow(Content(), fixed, e, k);
      r := Scan(false, 0, 0, false);
    }

    /** A splice that turns the list e into the list `next`, if nothing is lost. */
    method SpliceList(p: nat, cut: nat, bytes: seq<Byte>, allocates: bool,
                      ghost fixed: seq<Byte>, ghost next: seq<Element>)
      requires Valid() && |fixed| == FIXED && Sized(next) && p + cut <= ieLength
      requires Content()[..p] + bytes + Content()[p + cut..] == fixed + Encode(next)
      requires p + |bytes| + (ieLength - p - cut) <= ies.Length
      modifies this, ies
      ensures Valid()
      ensures Holds(fixed, next) <==> allocates || old(Slides(ies[..], ieLength, p, cut, |bytes|))
    {
      Splice(p, cut, bytes, allocates);
    }

    method ReplaceAt(p: nat, ielen: nat, x: Element, allocates: bool,
                     ghost fixed: seq<Byte>, ghost e: seq<Element>, ghost k: nat)
      requires Holds(fixed, e) && k < |e| && p == Offset(e, k) && ielen == |e[k].data|
      requires |x.data| < 256 && ieLength - ielen + |x.data| <= ies.Length
      modifies this, ies
      ensures Valid() && p + ielen + 2 <= old(ieLength)
      ensures Holds(fixed, e[..k] + [x] + e[k + 1..])
              <==> allocates || old(Slides(ies[..], ieLength, p, ielen + 2, 2 + |x.data|))
    {
      Replaced(Content(), fixed, e, k, x);
      SpliceList(p, ielen + 2, [x.id, |x.data|] + x.data, allocates, fixed, e[..k] + [x] + e[k + 1..]);
    }

    method InsertBehind(p: nat, ielen: nat, x: Element, allocates: bool,
                        ghost fixed: seq<Byte>, ghost e: seq<Element>, ghost k: nat)
      requires Holds(fixed, e) && k < |e| && p == Offset(e, k) && ielen == |e[k].data|
      requires |x.data| < 256 && ieLength + 2 + |x.data| <= ies.Length
      modifies this, ies
      ensures Valid() && p + ielen + 2 == Offset(e, k + 1) <= old(ieLength)
      ensures Holds(fixed, e[..k + 1] + [x] + e[k + 1..])
              <==> allocates || old(Slides(ies[..], ieLength, p + ielen + 2, 0, 2 + |x.data|))
    {
      OffsetStep(e, k);
      InsertedAfter(Content(), fixed, e, k, x);
      SpliceList(p + ielen + 2, 0, [x.id, |x.data|] + x.data, allocates, fixed, e[..k + 1] + [x] + e[k + 1..]);
    }

    method AddAt(r: Scan, x: Element, allocates: bool, ghost fixed: seq<Byte>, ghost e: seq<Element>)
      requires Holds(fixed, e) && Acts(e, x.id) && |x.data| < 256 && ieLength + Growth(e, x) <= ies.Length
      requires r.p == Offset(e, Anchor(e, x.id)) && r.ielen == |e[Anchor(e, x.id)].data| && r.bmatch == Match(e, x.id)
      modifies this, ies
      ensures Valid()
      ensures Holds(fixed, Added(e, x)) <==> allocates || old(AddSlides(ies[..], ieLength, e, x))
    {
      if r.bmatch {
        ReplaceAt(r.p, r.ielen, x, allocates, fixed, e, Slot(e, x.id));
      } else {
        InsertBehind(r.p, r.ielen, x, allocates, fixed, e, Slot(e, x.id) - 1);
      }
    }

    /**
     Adding an element: the list in the buffer becomes `Added`, and IELength is exact, unless an allocation
     fails and the octets to move are not where they belong by chance. They are if the anchor is the last
     element or an element of the same length is replaced.
     */
    method Add(id: Byte, data: seq<Byte>, allocates: bool, ghost fixed: seq<Byte>, ghost e: seq<Element>)
      requires Holds(fixed, e) && |data| < 256 && ieLength + Growth(e, Element(id, data)) <= ies.Length
      modifies this, ies
      ensures Valid()
      ensures !Acts(e, id) ==> ies[..] == old(ies[..]) && ieLength == old(ieLength)
      ensures Holds(fixed, Added(e, Element(id, data)))
              <==> allocates || old(AddSlides(ies[..], ieLength, e, Element(id, data)))
      ensures Anchor(e, id) == |e| - 1 || (Match(e, id) && |e[Slot(e, id)].data| == |data|) ==>
                Holds(fixed, Added(e, Element(id, data)))
    {
      var r := ScanForSlot(id, fixed, e);
      if !r.found || r.ielen == 0 {
        return;
      }
      AddSlidesWhen(ies[..], ieLength, fixed, e, Element(id, data));
      AddAt(r, Element(id, data), allocates, fixed, e);
    }

    method CutAt(p: nat, ielen: nat, allocates: bool, ghost fixed: seq<Byte>, ghost e: seq<Element>, ghost k: nat)
      requires Holds(fixed, e) && k < |e| && p == Offset(e, k) && ielen == |e[k].data|
      modifies this, ies
      ensures Valid() && p + ielen + 2 <= old(ieLength)
      ensures Holds(fixed, e[..k] + e[k + 1..])
              <==> allocates || old(Slides(ies[..], ieLength, p, ielen + 2, 0))
      ensures k == |e| - 1 ==> Holds(fixed, e[..k] + e[k + 1..])
    {
      CutOut(Content(), fixed, e, k);
      if k == |e| - 1 {
        SlidesWhen(ies[..], ieLength, p, ielen + 2, 0);
      }
      SpliceList(p, ielen + 2, [], allocates, fixed, e[..k] + e[k + 1..]);
    }

    /** Removing the first element with an ID, unless it is empty; a failed allocation counts as in `Add`. */
    method Remove(id: Byte, allocates: bool, ghost fixed: seq<Byte>, ghost e: seq<Element>)
      requires Holds(fixed, e)
      modifies this, ies
      ensures Valid()
      ensures !Removable(e, id) ==> ies[..] == old(ies[..]) && ieLength == old(ieLength)
      ensures Holds(fixed, Removed(e, id)) <==> allocates || old(RemoveSlides(ies[..], ieLength, e, id))
      ensures Find(e, id) == |e| - 1 ==> Holds(fixed, Removed(e, id))
    {
      var r := GetIe(id, fixed, e);
      if !r.found || r.ielen == 0 {
        return;
      }
      CutAt(r.p, r.ielen, allocates, fixed, e, Find(e, id));
    }

    /** A freshly added ID taken out again: the octets and the length are what they were. */
    method AddThenRemove(id: Byte, data: seq<Byte>, ghost fixed: seq<Byte>, ghost e: seq<Element>)
      requires Holds(fixed, e) && 0 < |data| < 256 && ieLength + Growth(e, Element(id, data)) <= ies.Length
      requires Absent(e, id)
      modifies this, ies
      ensures Valid() && Content() == old(Content())
    {
      Add(id, data, true, fixed, e);
      RemoveAfterAdd(e, Element(id, data));
      Remove(id, true, fixed, Added(e, Element(id, data)));
    }

    /**
     `cut` octets at `at` give way to `bytes`; what follows is saved in a temporary buffer first, if that can be
     allocated. If not, the outcome is right exactly when the octets that come to follow are those that should.
     */
    method Splice(at: nat, cut: nat, bytes: seq<Byte>, allocates: bool)
      requires Valid() && at + cut <= ieLength
      requires at + |bytes| + (ieLength - at - cut) <= ies.Length
      modifies this, ies
      ensures Valid() && ieLength == old(ieLength) - cut + |bytes|
      ensures Content() == old(Content()[..at]) + bytes + old(Content()[at + cut..])
              <==> allocates || old(Slides(ies[..], ieLength, at, cut, |bytes|))
      ensures !allocates ==> ies[..] == Patched(old(ies[..]), at, bytes)
    {
      var backup := [];
      if allocates {
        backup := ies[at + cut..ieLength];
      }
      ghost var before, n := ies[..], ieLength;
      CopyIn(ies, at, bytes);
      ghost var middle := ies[..];
      UnsavedIff(before, n, at, cut, bytes);
      if allocates {
        CopyIn(ies, at + |bytes|, backup);
        TwoCopies(before, at, bytes, backup, ies[..]);
      }
      ieLength := at + |bytes| + (ieLength - at - cut);
      SplicedContent(before, n, at, cut, bytes, middle);
    }
  }

  /** What stands where the rest of the first n octets would go is that rest already. */
  predicate Slides(s: seq<Byte>, n: nat, at: nat, cut: nat, len: nat)
    requires at + cut <= n <= |s| && at + len + (n - at - cut) <= |s|
  {
    s[at + len..at + len + (n - at - cut)] == s[at + cut..n]
  }

  /** It is so at the end of the content and when nothing changes length. */
  lemma SlidesWhen(s: seq<Byte>, n: nat, at: nat, cut: nat, len: nat)
    requires at + cut <= n <= |s| && at + len + (n - at - cut) <= |s|
    requires at + cut == n || cut == len
    ensures Slides(s, n, at, cut, len)
  {
  }

  lemma PlaceEnds(s: seq<Byte>, fixed: seq<Byte>, e: seq<Element>, id: Byte)
    requires |fixed| == FIXED && Sized(e) && s == fixed + Encode(e) && Acts(e, id)
    ensures Place(e, id) + Displaced(e, id) <= |s|
    ensures Anchor(e, id) == |e| - 1 ==> Place(e, id) + Displaced(e, id) == |s|
  {
    var k := Slot(e, id);
    var next := if Match(e, id) then k + 1 else k;
    if Match(e, id) {
      OffsetStep(e, k);
    }
    assert Place(e, id) + Displaced(e, id) == Offset(e, next) && Anchor(e, id) == next - 1;
    EndsAt(s, fixed, e, next);
  }

  lemma EndsAt(s: seq<Byte>, fixed: seq<Byte>, e: seq<Element>, k: nat)
    requires |fixed| == FIXED && Sized(e) && s == fixed + Encode(e) && k <= |e|
    ensures Offset(e, k) <= |s| && (k == |e| ==> Offset(e, k) == |s|)
  {
    OffsetsGrow(s, fixed, e, k);
    OffsetEnd(e);
  }

  /** Adding x to the list e in the first n octets of s moves nothing that does not stand there already. */
  predicate AddSlides(s: seq<Byte>, n: nat, e: seq<Element>, x: Element)
    requires Sized(e) && n <= |s|
  {
    Acts(e, x.id) ==>
      var p, cut := Place(e, x.id), Displaced(e, x.id);
      p + cut <= n && n + Growth(e, x) <= |s| && Slides(s, n, p, cut, 2 + |x.data|)
  }

  predicate RemoveSlides(s: seq<Byte>, n: nat, e: seq<Element>, id: Byte)
    requires Sized(e) && n <= |s|
  {
    Removable(e, id) ==>
      var p, cut := Offset(e, Find(e, id)), 2 + |e[Find(e, id)].data|;
      p + cut <= n && Slides(s, n, p, cut, 0)
  }

  lemma AddSlidesWhen(s: seq<Byte>, n: nat, fixed: seq<Byte>, e: seq<Element>, x: Element)
    requires n <= |s| && |fixed| == FIXED && Sized(e) && s[..n] == fixed + Encode(e)
    requires Acts(e, x.id) && n + Growth(e, x) <= |s|
    ensures Anchor(e, x.id) == |e| - 1 || Displaced(e, x.id) == 2 + |x.data| ==> AddSlides(s, n, e, x)
  {
    PlaceEnds(s[..n], fixed, e, x.id);
    if Anchor(e, x.id) == |e| - 1 || Displaced(e, x.id) == 2 + |x.data| {
      SlidesWhen(s, n, Place(e, x.id), Displaced(e, x.id), 2 + |x.data|);
    }
  }

  /** An element put in between two others without the temporary buffer: the second one is overwritten. */
  lemma HarmfulInsertion()
    ensures var a, x, b := Element(0, [9]), Element(3, [1]), Element(5, [7]);
            var s := seq(FIXED, _ => 0) + Encode([a, b]) + [0, 0, 0];
            && Added([a, b], x) == [a, x, b]
            && !Slides(s, |s| - 3, FIXED + 3, 0, 3)
  {
    var a, b := Element(0, [9]), Element(5, [7]);
    EncodeConcat([a], [b]);
    EncodeOne(a);
    EncodeOne(b);
    var s: seq<Byte> := seq(FIXED, _ => 0) + Encode([a, b]) + [0, 0, 0];
    assert s[FIXED + 3..FIXED + 6][0] == 5 && s[FIXED + 6..FIXED + 9][0] == 0;
  }

  /** Content split at the octets of element k, given back with x instead. */
  lemma Replaced(s: seq<Byte>, fixed: seq<Byte>, e: seq<Element>, k: nat, x: Element)
    requires |fixed| == FIXED && Sized(e) && s == fixed + Encode(e) && k < |e| && |x.data| < 256
    ensures var p := Offset(e, k);
            && p + 2 + |e[k].data| <= |s| && (k == |e| - 1 ==> p + 2 + |e[k].data| == |s|)
            && Sized(e[..k] + [x] + e[k + 1..])
            && s[..p] + Bytes(x) + s[p + 2 + |e[k].data|..] == fixed + Encode(e[..k] + [x] + e[k + 1..])
  {
    Around(s, fixed, e, k);
    EncodeMiddle(e[..k], x, e[k + 1..]);
    Regroup(fixed, Encode(e[..k]), Bytes(x), Encode(e[k + 1..]));
  }

  /** Content split behind element k, with x put in there. */
  lemma InsertedAfter(s: seq<Byte>, fixed: seq<Byte>, e: seq<Element>, k: nat, x: Element)
    requires |fixed| == FIXED && Sized(e) && s == fixed + Encode(e) && k < |e| && |x.data| < 256
    ensures var p := Offset(e, k) + 2 + |e[k].data|;
            && p <= |s| && (k == |e| - 1 ==> p == |s|) && Sized(e[..k + 1] + [x] + e[k + 1..])
            && s[..p] + Bytes(x) + s[p..] == fixed + Encode(e[..k + 1] + [x] + e[k + 1..])
  {
    OffsetStep(e, k);
    assert e == e[..k + 1] + e[k + 1..];
    InsertedBetween(s, fixed, e[..k + 1], x, e[k + 1..]);
    assert k == |e| - 1 ==> e[k + 1..] == [];
  }

  lemma InsertedBetween(s: seq<Byte>, fixed: seq<Byte>, a: seq<Element>, x: Element, c: seq<Element>)
    requires Sized(a) && Sized(c) && Sized(a + c) && s == fixed + Encode(a + c) && |x.data| < 256
    ensures var p := |fixed| + |Encode(a)|;
            && p <= |s| && (c == [] ==> p == |s|) && Sized(a + [x] + c)
            && s[..p] + Bytes(x) + s[p..] == fixed + Encode(a + [x] + c)
  {
    EncodeConcat(a, c);
    EncodeMiddle(a, x, c);
    Halves(s, fixed, Encode(a), Encode(c));
    Regroup(fixed, Encode(a), Bytes(x), Encode(c));
  }

  /** Content with element k taken out. */
  lemma CutOut(s: seq<Byte>, fixed: seq<Byte>, e: seq<Element>, k: nat)
    requires |fixed| == FIXED && Sized(e) && s == fixed + Encode(e) && k < |e|
    ensures var p := Offset(e, k);
            && p + 2 + |e[k].data| <= |s| && (k == |e| - 1 ==> p + 2 + |e[k].data| == |s|)
            && Sized(e[..k] + e[k + 1..])
            && s[..p] + [] + s[p + 2 + |e[k].data|..] == fixed + Encode(e[..k] + e[k + 1..])
  {
    Around(s, fixed, e, k);
    EncodeConcat(e[..k], e[k + 1..]);
    Regroup(fixed, Encode(e[..k]), [], Encode(e[k + 1..]));
    assert Encode(e[..k]) + [] + Encode(e[k + 1..]) == Encode(e[..k]) + Encode(e[k + 1..]);
  }

  lemma Halves(s: seq<Byte>, f: seq<Byte>, a: seq<Byte>, c: seq<Byte>)
    requires s == f + (a + c)
    ensures s[..|f| + |a|] == f + a && s[|f| + |a|..] == c
  {
  }

  lemma Regroup(f: seq<Byte>, a: seq<Byte>, b: seq<Byte>, c: seq<Byte>)
    ensures (f + a) + b + c == f + (a + b + c)
  {
  }

  lemma TwoCopies(s: seq<Byte>, at: nat, a: seq<Byte>, b: seq<Byte>, r: seq<Byte>)
    requires at + |a| + |b| <= |s|
    requires var m := s[..at] + a + s[at + |a|..]; r == m[..at + |a|] + b + m[at + |a| + |b|..]
    ensures r[..at + |a| + |b|] == s[..at] + a + b
  {
  }

  lemma SplicedContent(s: seq<Byte>, n: nat, at: nat, cut: nat, bytes: seq<Byte>, m: seq<Byte>)
    requires at + cut <= n <= |s| && at + |bytes| <= |s| && m == Patched(s, at, bytes)
    ensures s[..n][..at] == s[..at] && s[..n][at + cut..] == s[at + cut..n]
    ensures m[..at + |bytes|] == s[..at] + bytes
  {
  }

  lemma SamePrefix(p: seq<Byte>, x: seq<Byte>, y: seq<Byte>)
    ensures p + x == p + y <==> x == y
  {
    assert (p + x)[|p|..] == x && (p + y)[|p|..] == y;
  }

  /** Without the second copy the content is right exactly if the rest happens to stand where it belongs. */
  lemma UnsavedIff(s: seq<Byte>, n: nat, at: nat, cut: nat, bytes: seq<Byte>)
    requires at + cut <= n <= |s| && at + |bytes| + (n - at - cut) <= |s|
    ensures Patched(s, at, bytes)[..at + |bytes| + (n - at - cut)] == s[..at] + bytes + s[at + cut..n]
            <==> Slides(s, n, at, cut, |bytes|)
  {
    var to := at + |bytes| + (n - at - cut);
    assert Patched(s, at, bytes)[..to] == s[..at] + bytes + s[at + |bytes|..to];
    SamePrefix(s[..at] + bytes, s[at + |bytes|..to], s[at + cut..n]);
  }
}
