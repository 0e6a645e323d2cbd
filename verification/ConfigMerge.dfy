/**
 Merging extra configuration items into the list read from the configuration
 file. The driver walks the base list once per extra item and edits it while
 it walks; the result is an overlay.
 */
module ConfigMerge {

  import opened Octets

  /** A configuration item: bytes to write at an offset. */
  datatype Item = Item(offset: Word, data: seq<Byte>)

  // ------------------------------------------------------ one extra item

  /** The start of n overwritten by the shorter e. */
  function Updated(n: Item, e: Item): Item
    requires |e.data| < |n.data|
  {
    n.(data := e.data + n.data[|e.data|..])
  }

  datatype Walked = Walked(list: seq<Item>, taken: bool)

  /**
   What one walk of an extra item over the rest of the base list leaves, for any
   list: an item that is not longer gives its place to the extra one and the walk
   goes on, so that a later match takes the extra item away again.
   */
  function Walk(b: seq<Item>, e: Item): Walked
    decreases |b|
  {
    if b == [] then Walked([], false)
    else
      var rest := Walk(b[1..], e);
      if b[0].offset != e.offset then Walked([b[0]] + rest.list, rest.taken)
      else if |e.data| < |b[0].data| then Walked([Updated(b[0], e)] + b[1..], true)
      else if rest.taken then rest
      else Walked([e] + b[1..], true)
  }

  /** All extra items in turn; those that found no match are left over. */
  datatype Folded = Folded(list: seq<Item>, left: seq<Item>)

  function Fold(b: seq<Item>, es: seq<Item>): Folded
    decreases |es|
  {
    if es == [] then Folded(b, [])
    else
      var w := Walk(b, es[0]);
      var f := Fold(w.list, es[1..]);
      Folded(f.list, (if w.taken then [] else [es[0]]) + f.left)
  }

  function Merged(b: seq<Item>, es: seq<Item>): seq<Item> {
    var f := Fold(b, es);
    f.list + f.left
  }

  // ----------------------------------------------------------- the lists

  class ConfigLists {
    var configs: seq<Item>
    var extra: seq<Item>

    constructor (configs: seq<Item>, extra: seq<Item>)
      ensures this.configs == configs && this.extra == extra
    {
      this.configs, this.extra := configs, extra;
    }

    /** One round of the inner loop: e takes the place of configs[k], leaving the place it was put at before. */
    method Replace(k: nat, e: Item, put: int, ghost done: seq<Item>, ghost rest: seq<Item>) returns (i: nat)
      requires configs == done + rest && |done| == k && rest != [] && -1 <= put < k
      modifies `configs
      ensures i == |Lifted(done, put)|
      ensures configs == (Lifted(done, put) + [e]) + rest[1..]
    {
      i := k;
      PutAt(done, rest, e);
      configs := configs[k := e];
      if put >= 0 {
        LiftAt(done, put, e, rest[1..]);
        configs := configs[..put] + configs[put + 1..];
        i := k - 1;
      }
    }

    /** The walk of e over b stands at k, with the part `done` behind it and e put down at `put`. */
    ghost predicate Walking(b: seq<Item>, e: Item, done: seq<Item>, put: int, rest: seq<Item>, k: nat)
      reads `configs
    {
      configs == done + rest && k == |done| && -1 <= put < k && Walk(b, e) == Finished(done, put, rest, e)
    }

    /** The inner loop: walk e over the base list. */
    method Absorb(e: Item) returns (taken: bool)
      modifies `configs
      ensures Walked(configs, taken) == Walk(old(configs), e)
    {
      ghost var done, rest := [], configs;
      var put, k := -1, 0;
      WalkStarts(configs, e);
      while k < |configs|
        modifies `configs
        invariant Walking(old(configs), e, done, put, rest, k)
        decreases |rest|
      {
        if e.offset == configs[k].offset {
          if |e.data| < |configs[k].data| {
            StepUpdate(done, put, rest, e);
            var _ := Replace(k, Updated(configs[k], e), put, done, rest);
            return true;
          }
          k := PutDown(k, e, put, done, rest, old(configs));
          done, put := Lifted(done, put) + [e], k;
        } else {
          StepPast(done, put, rest, e);
          Passed(done, rest);
          done := done + [rest[0]];
        }
        k, rest := k + 1, rest[1..];
      }
      WalkEnds(done, put, rest, e);
      taken := put >= 0;
    }

    /** The round in which the item at k is not longer than e. */
    method PutDown(k: nat, e: Item, put: int, ghost done: seq<Item>, ghost rest: seq<Item>, ghost b: seq<Item>)
      returns (i: nat)
      requires Walking(b, e, done, put, rest, k) && k < |configs|
      requires e.offset == configs[k].offset && |e.data| >= |configs[k].data|
      modifies `configs
      ensures i == |Lifted(done, put)| && rest != [] && Walking(b, e, Lifted(done, put) + [e], i, rest[1..], i + 1)
    {
      StepReplace(done, put, rest, e);
      i := Replace(k, e, put, done, rest);
    }

    /** One round of the outer loop: the extra item at i goes, or is passed over. */
    method AbsorbNext(i: nat, ghost kept: seq<Item>, ghost rest: seq<Item>) returns (i': nat, ghost kept': seq<Item>)
      requires extra == kept + rest && i == |kept| && rest != []
      modifies `configs, `extra
      ensures extra == kept' + rest[1..] && i' == |kept'|
      ensures FoldFrom(kept, old(configs), rest) == FoldFrom(kept', configs, rest[1..])
    {
      TakeAt(kept, rest);
      FoldOne(kept, configs, rest);
      i', kept' := i, kept;
      var taken := Absorb(extra[i]);
      if taken {
        extra := extra[..i] + extra[i + 1..];
      } else {
        i', kept' := i + 1, kept + [rest[0]];
      }
    }

    /** The outer loop: every extra item is walked over the base list once. */
    method AbsorbAll()
      modifies `configs, `extra
      ensures Folded(configs, extra) == Fold(old(configs), old(extra))
    {
      ghost var b, es, kept, rest := configs, extra, [], extra;
      FoldEnds(kept, b, es);
      var i := 0;
      while i < |extra|
        modifies `configs, `extra
        invariant extra == kept + rest && i == |kept|
        invariant Fold(b, es) == FoldFrom(kept, configs, rest)
        decreases |rest|
      {
        i, kept := AbsorbNext(i, kept, rest);
        rest := rest[1..];
      }
      FoldEnds(kept, configs, rest);
    }

    /** The whole merge, with its two early exits. */
    method Merge()
      modifies `configs, `extra
      ensures configs == Merged(old(configs), old(extra)) && extra == []
    {
      if extra == [] {
        assert configs + [] == configs;
        return;
      }
      if configs == [] {
        FoldNothing(extra);
        assert [] + extra == extra;
        configs, extra := extra, [];
        return;
      }
      AbsorbAll();
      ghost var total := configs + extra;
      while extra != []
        modifies `configs, `extra
        invariant configs + extra == total
      {
        configs, extra := configs + [extra[0]], extra[1..];
      }
    }
  }

  lemma PutAt(done: seq<Item>, rest: seq<Item>, e: Item)
    requires rest != []
    ensures (done + rest)[|done| := e] == (done + [e]) + rest[1..]
  {
  }

  lemma LiftAt(done: seq<Item>, put: nat, e: Item, rest: seq<Item>)
    requires put < |done|
    ensures var c := (done + [e]) + rest;
            c[..put] + c[put + 1..] == (Lifted(done, put) + [e]) + rest
  {
    var c := (done + [e]) + rest;
    assert c[..put] == done[..put];
    assert c[put + 1..] == (done[put + 1..] + [e]) + rest;
  }

  lemma Passed(done: seq<Item>, rest: seq<Item>)
    requires rest != []
    ensures done + rest == (done + [rest[0]]) + rest[1..]
  {
  }

  lemma WalkStarts(b: seq<Item>, e: Item)
    ensures Walk(b, e) == Finished([], -1, b, e) && [] + b == b
  {
    WalkUntaken(b, e);
  }

  lemma WalkEnds(done: seq<Item>, put: int, rest: seq<Item>, e: Item)
    requires rest == [] && -1 <= put < |done|
    ensures Finished(done, put, rest, e) == Walked(done + rest, put >= 0)
  {
  }

  /** The merge resumed with the extra items `kept` already found to be new. */
  function FoldFrom(kept: seq<Item>, b: seq<Item>, rest: seq<Item>): Folded {
    var f := Fold(b, rest);
    Folded(f.list, kept + f.left)
  }

  lemma FoldEnds(kept: seq<Item>, b: seq<Item>, rest: seq<Item>)
    ensures kept == [] ==> FoldFrom(kept, b, rest) == Fold(b, rest)
    ensures rest == [] ==> FoldFrom(kept, b, rest) == Folded(b, kept)
  {
  }

  lemma TakeAt(kept: seq<Item>, rest: seq<Item>)
    requires rest != []
    ensures var all, k := kept + rest, |kept|;
            && all[k] == rest[0]
            && all[..k] + all[k + 1..] == kept + rest[1..]
            && all == (kept + [rest[0]]) + rest[1..]
  {
  }

  lemma FoldOne(kept: seq<Item>, b: seq<Item>, rest: seq<Item>)
    requires rest != []
    ensures var w := Walk(b, rest[0]);
            FoldFrom(kept, b, rest) == FoldFrom(if w.taken then kept else kept + [rest[0]], w.list, rest[1..])
  {
  }

  lemma {:induction false} WalkUntaken(b: seq<Item>, e: Item)
    ensures !Walk(b, e).taken ==> Walk(b, e).list == b
    ensures Walk(b, e).taken <==> exists n :: n in b && n.offset == e.offset
    decreases |b|
  {
    if b != [] {
      WalkUntaken(b[1..], e);
      assert b == [b[0]] + b[1..];
    }
  }

  lemma StepPast(done: seq<Item>, put: int, rest: seq<Item>, e: Item)
    requires -1 <= put < |done| && rest != [] && rest[0].offset != e.offset
    ensures Finished(done, put, rest, e) == Finished(done + [rest[0]], put, rest[1..], e)
  {
  }

  lemma StepUpdate(done: seq<Item>, put: int, rest: seq<Item>, e: Item)
    requires -1 <= put < |done| && rest != []
    requires rest[0].offset == e.offset && |e.data| < |rest[0].data|
    ensures Finished(done, put, rest, e)
            == Walked((Lifted(done, put) + [Updated(rest[0], e)]) + rest[1..], true)
  {
  }

  lemma StepReplace(done: seq<Item>, put: int, rest: seq<Item>, e: Item)
    requires -1 <= put < |done| && rest != []
    requires rest[0].offset == e.offset && |e.data| >= |rest[0].data|
    ensures var base := Lifted(done, put);
            Finished(done, put, rest, e) == Finished(base + [e], |base|, rest[1..], e)
  {
  }

  lemma {:induction false} FoldNothing(es: seq<Item>)
    ensures Fold([], es) == Folded([], es)
    decreases |es|
  {
    if es != [] {
      FoldNothing(es[1..]);
      assert [es[0]] + es[1..] == es;
    }
  }

  /** The list without the element at `put`, if any. */
  function Lifted(done: seq<Item>, put: int): seq<Item>
    requires -1 <= put < |done|
  {
    if put >= 0 then done[..put] + done[put + 1..] else done
  }

  /** The walk resumed with the part `done` behind it and e put down at `put`. */
  function Finished(done: seq<Item>, put: int, rest: seq<Item>, e: Item): Walked
    requires -1 <= put < |done|
  {
    var w := Walk(rest, e);
    if w.taken then Walked(Lifted(done, put) + w.list, true)
    else Walked(done + rest, put >= 0)
  }

  // ----------------------------------------------------- overlay theorem

  predicate Distinct(b: seq<Item>) {
    forall i, j :: 0 <= i < j < |b| ==> b[i].offset != b[j].offset
  }

  predicate Covers(b: seq<Item>, offset: Word) {
    exists n :: n in b && n.offset == offset
  }

  /** One item under one extra item: a prefix or the whole of it is overwritten. */
  function Under(n: Item, e: Item): (r: Item)
    ensures r.offset == n.offset
    ensures |r.data| == if n.offset == e.offset && |e.data| > |n.data| then |e.data| else |n.data|
    ensures forall k :: 0 <= k < |r.data| ==>
              r.data[k] == if n.offset == e.offset && k < |e.data| then e.data[k] else n.data[k]
  {
    if n.offset != e.offset then n
    else if |e.data| < |n.data| then Updated(n, e)
    else e
  }

  /** One item under all extra items in turn. */
  function UnderAll(n: Item, es: seq<Item>): (r: Item)
    ensures r.offset == n.offset
    decreases |es|
  {
    if es == [] then n else UnderAll(Under(n, es[0]), es[1..])
  }

  function Layered(b: seq<Item>, es: seq<Item>): (r: seq<Item>)
    ensures |r| == |b| && forall i :: 0 <= i < |b| ==> r[i] == UnderAll(b[i], es)
  {
    seq(|b|, i requires 0 <= i < |b| => UnderAll(b[i], es))
  }

  /** The extra items, in order, whose offset the base list lacks. */
  function News(b: seq<Item>, es: seq<Item>): seq<Item>
    decreases |es|
  {
    if es == [] then []
    else (if Covers(b, es[0].offset) then [] else [es[0]]) + News(b, es[1..])
  }

  lemma {:induction false} WalkLayers(b: seq<Item>, e: Item)
    requires Distinct(b)
    ensures |Walk(b, e).list| == |b| && forall i :: 0 <= i < |b| ==> Walk(b, e).list[i] == Under(b[i], e)
    decreases |b|
  {
    if b != [] {
      var t := b[1..];
      assert forall i :: 0 <= i < |t| ==> t[i] == b[i + 1];
      if b[0].offset == e.offset {
        assert forall i :: 0 <= i < |t| ==> t[i].offset != e.offset && Under(t[i], e) == t[i];
        WalkUntaken(t, e);
      } else {
        WalkLayers(t, e);
      }
    }
  }

  lemma {:induction false} NewsSame(b: seq<Item>, c: seq<Item>, es: seq<Item>)
    requires |b| == |c| && forall i :: 0 <= i < |b| ==> b[i].offset == c[i].offset
    ensures News(b, es) == News(c, es)
    decreases |es|
  {
    if es != [] {
      NewsSame(b, c, es[1..]);
      var o := es[0].offset;
      if n :| n in b && n.offset == o {
        var i :| 0 <= i < |b| && b[i] == n;
        assert c[i] in c && c[i].offset == o;
      }
      if n :| n in c && n.offset == o {
        var i :| 0 <= i < |c| && c[i] == n;
        assert b[i] in b && b[i].offset == o;
      }
    }
  }

  lemma {:induction false} FoldLayers(b: seq<Item>, es: seq<Item>)
    requires Distinct(b)
    ensures Fold(b, es) == Folded(Layered(b, es), News(b, es))
    decreases |es|
  {
    if es == [] {
      assert Layered(b, es) == b;
    } else {
      var e, w := es[0], Walk(b, es[0]);
      WalkLayers(b, e);
      WalkUntaken(b, e);
      FoldLayers(w.list, es[1..]);
      NewsSame(b, w.list, es[1..]);
      assert forall i :: 0 <= i < |b| ==> UnderAll(b[i], es) == UnderAll(w.list[i], es[1..]);
      assert Layered(w.list, es[1..]) == Layered(b, es);
    }
  }

  /**
   The merge is an overlay whenever the base list has distinct offsets, whatever
   the extra items: the base items stay in order, each under the extra items that
   hit it, and the extra items with new offsets follow in order.
   */
  lemma MergeIsOverlay(b: seq<Item>, es: seq<Item>)
    requires Distinct(b)
    ensures Merged(b, es) == Layered(b, es) + News(b, es)
    ensures Distinct(Merged(b, es)) <==> Distinct(News(b, es))
  {
    FoldLayers(b, es);
    NewsAreNew(b, es);
    var l, s := Layered(b, es), News(b, es);
    forall i, j | 0 <= i < |b| && 0 <= j < |s| ensures l[i].offset != s[j].offset {
      assert b[i] in b && s[j] in s;
    }
    assert forall i, j :: 0 <= i < j < |l| ==>
      b[i].offset != b[j].offset && l[i].offset == b[i].offset && l[j].offset == b[j].offset;
    DistinctJoin(l, s);
  }

  /** Joining lists without a common offset. */
  lemma DistinctJoin(l: seq<Item>, s: seq<Item>)
    requires Distinct(l) && forall i, j :: 0 <= i < |l| && 0 <= j < |s| ==> l[i].offset != s[j].offset
    ensures Distinct(l + s) <==> Distinct(s)
  {
    if Distinct(l + s) {
      forall i, j | 0 <= i < j < |s| ensures s[i].offset != s[j].offset {
        assert (l + s)[|l| + i] == s[i] && (l + s)[|l| + j] == s[j];
      }
    }
  }

  lemma {:induction false} NewsAreNew(b: seq<Item>, es: seq<Item>)
    ensures forall e :: e in News(b, es) <==> e in es && !Covers(b, e.offset)
    decreases |es|
  {
    if es != [] {
      NewsAreNew(b, es[1..]);
      assert forall e :: e in es <==> e == es[0] || e in es[1..];
    }
  }

  lemma {:induction false} UnderNone(n: Item, es: seq<Item>)
    requires !Covers(es, n.offset)
    ensures UnderAll(n, es) == n
    decreases |es|
  {
    if es != [] {
      assert es[0] in es && forall e :: e in es[1..] ==> e in es;
      UnderNone(n, es[1..]);
    }
  }

  /** With distinct extra offsets an item lies under at most one of them. */
  lemma {:induction false} UnderOne(n: Item, es: seq<Item>, k: nat)
    requires Distinct(es) && k < |es| && es[k].offset == n.offset
    ensures UnderAll(n, es) == Under(n, es[k])
    decreases |es|
  {
    var t := es[1..];
    if k == 0 {
      forall e | e in t ensures e.offset != n.offset {
        var j :| 0 <= j < |t| && t[j] == e;
        assert es[j + 1] == e;
      }
      UnderNone(Under(n, es[0]), t);
    } else {
      assert es[0].offset != es[k].offset;
      assert t[k - 1] == es[k];
      UnderOne(n, t, k - 1);
    }
  }

  lemma {:induction false} NewsDistinct(b: seq<Item>, es: seq<Item>)
    requires Distinct(es)
    ensures Distinct(News(b, es))
    decreases |es|
  {
    if es != [] {
      var t := es[1..];
      NewsDistinct(b, t);
      NewsAreNew(b, t);
      forall e | e in News(b, t) ensures e.offset != es[0].offset {
        assert e in t;
        var j :| 0 <= j < |t| && t[j] == e;
        assert es[j + 1] == e;
      }
    }
  }

  /**
   With distinct offsets in both lists, offsets stay distinct, every base item is
   still there in its place under the one extra item with its offset, and every
   extra item is either there unchanged or has gone into a base item.
   */
  lemma MergeOfDistinct(b: seq<Item>, es: seq<Item>)
    requires Distinct(b) && Distinct(es)
    ensures Distinct(Merged(b, es)) && |Merged(b, es)| == |b| + |News(b, es)|
    ensures forall i :: 0 <= i < |b| && !Covers(es, b[i].offset) ==> Merged(b, es)[i] == b[i]
    ensures forall i, k :: 0 <= i < |b| && 0 <= k < |es| && es[k].offset == b[i].offset ==>
              Merged(b, es)[i] == Under(b[i], es[k])
    ensures forall e :: e in es && !Covers(b, e.offset) ==> e in Merged(b, es)
  {
    MergeIsOverlay(b, es);
    NewsDistinct(b, es);
    NewsAreNew(b, es);
    forall i | 0 <= i < |b| && !Covers(es, b[i].offset) ensures Merged(b, es)[i] == b[i] {
      UnderNone(b[i], es);
    }
    forall i, k | 0 <= i < |b| && 0 <= k < |es| && es[k].offset == b[i].offset
      ensures Merged(b, es)[i] == Under(b[i], es[k]) {
      UnderOne(b[i], es, k);
    }
  }

  // ------------------------------------------------ when it is an overlay

  /** How many items a list has at an offset. */
  function CountAt(b: seq<Item>, offset: Word): nat
    decreases |b|
  {
    if b == [] then 0 else (if b[0].offset == offset then 1 else 0) + CountAt(b[1..], offset)
  }

  function Longest(b: seq<Item>): (n: nat)
    ensures forall x :: x in b ==> |x.data| <= n
    decreases |b|
  {
    if b == [] then 0
    else
      var n := Longest(b[1..]);
      assert forall x :: x in b ==> x == b[0] || x in b[1..];
      if |b[0].data| > n then |b[0].data| else n
  }

  /** An extra item that no base item exceeds leaves one of the items at its offset. */
  lemma {:induction false} WalkLeavesOne(b: seq<Item>, e: Item)
    requires forall x :: x in b ==> |x.data| <= |e.data|
    ensures Walk(b, e).taken <==> CountAt(b, e.offset) > 0
    ensures |Walk(b, e).list| == |b| - if CountAt(b, e.offset) > 0 then CountAt(b, e.offset) - 1 else 0
    decreases |b|
  {
    if b != [] {
      assert b[0] in b && forall x :: x in b[1..] ==> x in b;
      WalkLeavesOne(b[1..], e);
    }
  }

  lemma {:induction false} CountSome(b: seq<Item>, i: nat)
    requires i < |b|
    ensures CountAt(b, b[i].offset) > 0
    decreases |b|
  {
    if i > 0 {
      CountSome(b[1..], i - 1);
    }
  }

  lemma {:induction false} CountTwice(b: seq<Item>, i: nat, j: nat)
    requires i < j < |b| && b[i].offset == b[j].offset
    ensures CountAt(b, b[i].offset) > 1
    decreases |b|
  {
    if i > 0 {
      CountTwice(b[1..], i - 1, j - 1);
    } else {
      CountSome(b[1..], j - 1);
    }
  }

  /** An extra item at a repeated offset, as long as the longest base item, costs the base list a place. */
  lemma RepeatedLosesPlace(b: seq<Item>, i: nat, j: nat)
    requires i < j < |b| && b[i].offset == b[j].offset
    ensures var e := Item(b[i].offset, seq(Longest(b), _ => 0));
            |Merged(b, [e])| < |b|
  {
    var e := Item(b[i].offset, seq(Longest(b), _ => 0));
    CountTwice(b, i, j);
    WalkLeavesOne(b, e);
    assert [e][1..] == [];
    assert Fold(b, [e]) == Folded(Walk(b, e).list, []);
  }

  /** The merge with every list of extra items is an overlay exactly if the base list has distinct offsets. */
  lemma OverlayIffDistinct(b: seq<Item>)
    ensures (forall es :: Merged(b, es) == Layered(b, es) + News(b, es)) <==> Distinct(b)
  {
    if Distinct(b) {
      forall es ensures Merged(b, es) == Layered(b, es) + News(b, es) {
        MergeIsOverlay(b, es);
      }
    } else {
      var i, j :| 0 <= i < j < |b| && b[i].offset == b[j].offset;
      var es := [Item(b[i].offset, seq(Longest(b), _ => 0))];
      RepeatedLosesPlace(b, i, j);
      assert |Merged(b, es)| < |Layered(b, es)|;
    }
  }

  /** An instance: the first of two items at one offset is lost. */
  lemma RepeatedOffsetLosesItem()
    ensures var b := [Item(1, [10]), Item(1, [20, 21])];
            Merged(b, [Item(1, [30])]) == [Item(1, [30, 21])]
  {
    var b, e := [Item(1, [10]), Item(1, [20, 21])], Item(1, [30]);
    assert b[1..] == [Item(1, [20, 21])] && b[1..][1..] == [];
    assert Updated(b[1], e).data == [30, 21];
    assert Walk(b[1..], e) == Walked([Item(1, [30, 21])] + b[1..][1..], true);
    assert Walk(b, e).list == [Item(1, [30, 21])];
    assert [e][1..] == [];
    assert Fold(b, [e]) == Folded([Item(1, [30, 21])], []);
  }
}
