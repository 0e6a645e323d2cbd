/**
 Adding and removing information elements of a beacon, on lists of elements;
 BeaconBuffer does the same in the byte buffer.
 */
module BeaconElements {

  import opened Octets

  datatype Element = Element(id: Byte, data: seq<Byte>)

  /** Where the add scan stops: the first element whose ID is not below id. */
  function Slot(e: seq<Element>, id: Byte): (k: nat)
    ensures k <= |e|
    ensures forall j :: 0 <= j < k ==> e[j].id < id
    ensures k < |e| ==> e[k].id >= id
  {
    if e == [] || e[0].id >= id then 0 else 1 + Slot(e[1..], id)
  }

  predicate Match(e: seq<Element>, id: Byte) {
    var k := Slot(e, id);
    k < |e| && e[k].id == id
  }

  /** The element the scan ends with: the match, or else the last one before the slot. */
  function Anchor(e: seq<Element>, id: Byte): int {
    if Match(e, id) then Slot(e, id) else Slot(e, id) - 1
  }

  /** Adding does something only if there is an anchor and it is not empty. */
  predicate Acts(e: seq<Element>, id: Byte) {
    Anchor(e, id) >= 0 && e[Anchor(e, id)].data != []
  }

  function Added(e: seq<Element>, n: Element): seq<Element> {
    if !Acts(e, n.id) then e
    else
      var k := Slot(e, n.id);
      if Match(e, n.id) then e[..k] + [n] + e[k + 1..] else e[..k] + [n] + e[k..]
  }

  /** The first element with this ID, wherever it stands. */
  function Find(e: seq<Element>, id: Byte): (k: nat)
    ensures k <= |e|
    ensures forall j :: 0 <= j < k ==> e[j].id != id
    ensures k < |e| ==> e[k].id == id
  {
    if e == [] || e[0].id == id then 0 else 1 + Find(e[1..], id)
  }

  predicate Removable(e: seq<Element>, id: Byte) {
    var k := Find(e, id);
    k < |e| && e[k].data != []
  }

  function Removed(e: seq<Element>, id: Byte): seq<Element> {
    if Removable(e, id) then e[..Find(e, id)] + e[Find(e, id) + 1..] else e
  }

  predicate Sorted(e: seq<Element>) {
    forall i, j :: 0 <= i < j < |e| ==> e[i].id <= e[j].id
  }

  predicate NonEmpty(e: seq<Element>) {
    forall x :: x in e ==> x.data != []
  }

  predicate Absent(e: seq<Element>, id: Byte) {
    forall x :: x in e ==> x.id != id
  }

  lemma FindIs(e: seq<Element>, id: Byte, k: nat)
    requires k <= |e| && (forall j :: 0 <= j < k ==> e[j].id != id) && (k < |e| ==> e[k].id == id)
    ensures Find(e, id) == k
  {
  }

  /** On sorted nonempty elements adding works exactly when some ID is at or below the new one. */
  lemma ActsWhen(e: seq<Element>, id: Byte)
    requires Sorted(e) && NonEmpty(e)
    ensures Acts(e, id) <==> exists x :: x in e && x.id <= id
  {
  }

  /** Order is kept, whether the element is replaced or inserted. */
  lemma AddedSorted(e: seq<Element>, n: Element)
    requires Sorted(e)
    ensures Sorted(Added(e, n))
  {
    var k := Slot(e, n.id);
    if Match(e, n.id) {
      SortedAround(e[..k], n, e[k + 1..]);
    } else {
      SortedAround(e[..k], n, e[k..]);
    }
  }

  lemma SortedAround(a: seq<Element>, n: Element, b: seq<Element>)
    requires Sorted(a) && Sorted(b)
    requires forall i :: 0 <= i < |a| ==> a[i].id <= n.id
    requires forall i :: 0 <= i < |b| ==> n.id <= b[i].id
    ensures Sorted(a + [n] + b)
  {
    var e := a + [n] + b;
    assert forall i :: 0 <= i < |a| ==> e[i].id <= n.id;
    assert forall i :: |a| <= i < |e| ==> n.id <= e[i].id;
    forall i, j | 0 <= i < j < |e| ensures e[i].id <= e[j].id {
      if |a| < i {
        assert e[i] == b[i - |a| - 1] && e[j] == b[j - |a| - 1];
      }
    }
  }

  lemma MultisetMiddle(a: seq<Element>, x: Element, b: seq<Element>)
    ensures multiset(a + [x] + b) == multiset(a + b) + multiset{x}
  {
  }

  /** Exactly one element is replaced or comes in; the others are there as before. */
  lemma AddedContents(e: seq<Element>, n: Element)
    requires Acts(e, n.id)
    ensures var out := if Match(e, n.id) then multiset{e[Slot(e, n.id)]} else multiset{};
            multiset(Added(e, n)) + out == multiset(e) + multiset{n}
  {
    var k := Slot(e, n.id);
    if Match(e, n.id) {
      Exchanged(e, k, n);
    } else {
      PutIn(e, k, n);
    }
  }

  lemma Exchanged(e: seq<Element>, k: nat, n: Element)
    requires k < |e|
    ensures multiset(e[..k] + [n] + e[k + 1..]) + multiset{e[k]} == multiset(e) + multiset{n}
  {
    assert e == e[..k] + [e[k]] + e[k + 1..];
    MultisetMiddle(e[..k], e[k], e[k + 1..]);
    MultisetMiddle(e[..k], n, e[k + 1..]);
  }

  lemma PutIn(e: seq<Element>, k: nat, n: Element)
    requires k <= |e|
    ensures multiset(e[..k] + [n] + e[k..]) == multiset(e) + multiset{n}
  {
    assert e == e[..k] + e[k..];
    MultisetMiddle(e[..k], n, e[k..]);
  }

  /**
   Removing a freshly added ID gives the list back, unless the new element went
   in empty: an empty element is never taken out. No order is needed.
   */
  lemma RemoveAfterAdd(e: seq<Element>, n: Element)
    requires Absent(e, n.id)
    ensures Removed(Added(e, n), n.id) == e <==> n.data != [] || !Acts(e, n.id)
  {
    var k := Slot(e, n.id);
    assert k < |e| ==> e[k] in e;
    if Acts(e, n.id) {
      RemovedInserted(e, k, n);
    } else {
      FindIs(e, n.id, |e|);
    }
  }

  lemma FindBetween(a: seq<Element>, x: Element, b: seq<Element>)
    requires forall y :: y in a ==> y.id != x.id
    ensures Find(a + [x] + b, x.id) == |a|
  {
    assert forall j :: 0 <= j < |a| ==> (a + [x] + b)[j] == a[j] && a[j] in a;
    FindIs(a + [x] + b, x.id, |a|);
  }

  lemma RemovedInserted(e: seq<Element>, k: nat, n: Element)
    requires Absent(e, n.id) && k <= |e|
    ensures Removed(e[..k] + [n] + e[k..], n.id) == e <==> n.data != []
  {
    assert e[..k] + e[k..] == e;
    if n.data != [] {
      RemovedBetween(e[..k], n, e[k..]);
    } else {
      FindBetween(e[..k], n, e[k..]);
    }
  }

  lemma AddedBetween(a: seq<Element>, x: Element, b: seq<Element>)
    requires a != [] && a[|a| - 1].data != []
    requires (forall y :: y in a ==> y.id < x.id) && (forall y :: y in b ==> y.id > x.id)
    ensures Added(a + b, x) == a + [x] + b
  {
  }

  lemma RemovedBetween(a: seq<Element>, x: Element, b: seq<Element>)
    requires x.data != [] && forall y :: y in a ==> y.id != x.id
    ensures Removed(a + [x] + b, x.id) == a + b
  {
    var e := a + [x] + b;
    FindBetween(a, x, b);
    assert e[..|a|] == a && e[|a| + 1..] == b;
  }

  /** An element taken out from between smaller and larger IDs goes back to its place. */
  lemma AddAfterRemove(a: seq<Element>, x: Element, b: seq<Element>)
    requires a != [] && a[|a| - 1].data != [] && x.data != []
    requires (forall y :: y in a ==> y.id < x.id) && (forall y :: y in b ==> y.id > x.id)
    ensures Added(Removed(a + [x] + b, x.id), x) == a + [x] + b
  {
    RemovedBetween(a, x, b);
    AddedBetween(a, x, b);
  }

  lemma SlotIs(a: seq<Element>, b: seq<Element>, id: Byte)
    requires (forall y :: y in a ==> y.id < id) && (b == [] || b[0].id >= id)
    ensures Slot(a + b, id) == |a|
  {
    assert forall j :: 0 <= j < |a| ==> (a + b)[j] == a[j] && a[j] in a;
    assert b != [] ==> (a + b)[|a|] == b[0];
  }

  /**
   A new element comes in exactly if the element it replaces, or else the one before its place, is there and not
   empty. So the empty SSID element of a hidden network blocks every insertion right behind it.
   */
  lemma EmptyAnchorBlocks(a: seq<Element>, b: seq<Element>, n: Element)
    requires (forall y :: y in a ==> y.id < n.id) && (b == [] || b[0].id >= n.id) && n !in a + b
    ensures n in Added(a + b, n) <==> if b != [] && b[0].id == n.id then b[0].data != []
                                      else a != [] && a[|a| - 1].data != []
    ensures n !in Added(a + b, n) ==> Added(a + b, n) == a + b
  {
    SlotIs(a, b, n.id);
    if Acts(a + b, n.id) {
      assert Added(a + b, n)[|a|] == n;
    }
  }
}
