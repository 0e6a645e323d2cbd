/** Overwriting a stretch of a byte buffer. */
module Buffers {

  import opened Octets

  /** s with the octets from `at` on overwritten by b. */
  function Patched(s: seq<Byte>, at: nat, b: seq<Byte>): (r: seq<Byte>)
    requires at + |b| <= |s|
    ensures |r| == |s|
  {
    s[..at] + b + s[at + |b|..]
  }

  lemma PatchedSlices(s: seq<Byte>, at: nat, b: seq<Byte>, from: nat, to: nat)
    requires at + |b| <= |s| && from <= to <= |s|
    ensures Patched(s, at, b)[at..at + |b|] == b
    ensures to <= at || at + |b| <= from ==> Patched(s, at, b)[from..to] == s[from..to]
  {
    var r := Patched(s, at, b);
    if to <= at || at + |b| <= from {
      assert forall i :: from <= i < to ==> r[i] == s[i];
    }
  }

  lemma PatchedOneMore(s: seq<Byte>, at: nat, b: seq<Byte>, k: nat)
    requires at + |b| <= |s| && k < |b|
    ensures Patched(s, at, b[..k])[at + k := b[k]] == Patched(s, at, b[..k + 1])
  {
    var t := Patched(s, at, b[..k]);
    assert t[..at + k] == s[..at] + b[..k] && t[at + k + 1..] == s[at + k + 1..];
    assert b[..k + 1] == b[..k] + [b[k]];
  }

  /** memcpy into a buffer. */
  method CopyIn(a: array<Byte>, at: nat, b: seq<Byte>)
    requires at + |b| <= a.Length
    modifies a
    ensures a[..] == Patched(old(a[..]), at, b)
  {
    ghost var s := a[..];
    assert s == s[..at] + [] + s[at..];
    for k := 0 to |b|
      invariant a[..] == Patched(s, at, b[..k])
    {
      PatchedOneMore(s, at, b, k);
      a[at + k] := b[k];
    }
    assert b[..|b|] == b;
  }
}
