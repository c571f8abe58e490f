/**
 Changes of byte sequences: blocks moved, bytes written over, and what stays where it was.
 */
module FdtBytes {
  import opened Seal
  import opened Seqs
  import opened Arith
  import opened FdtFormat

  /** memmove within a buffer. */
  function Moved(b: seq<byte>, to: int, from: int, n: int): (r: seq<byte>)
    requires 0 <= n && 0 <= from <= |b| - n && 0 <= to <= |b| - n
    ensures |r| == |b|
  {
    b[..to] + b[from..from + n] + b[to + n..]
  }

  /** memcpy into a buffer. */
  function Patched(b: seq<byte>, at: int, x: seq<byte>): (r: seq<byte>)
    requires 0 <= at <= |b| - |x|
    ensures |r| == |b|
  {
    b[..at] + x + b[at + |x|..]
  }

  /** u is t with x written at a place. */
  ghost predicate IsPatched(t: seq<byte>, at: int, x: seq<byte>, u: seq<byte>) {
    PatchedBytes(t, at, x, u) == true
  }

  ghost predicate PatchedBytes(t: seq<byte>, at: int, x: seq<byte>, u: seq<byte>) {
    && 0 <= at && at + |x| <= |t| && |u| == |t|
    && forall key: Key :: Opens(key) && key == OfBytes ==> u == Patched(t, at, x)
  }

  /** t is s with the bytes from a to b exchanged for x. */
  ghost predicate Exchanged(s: seq<byte>, a: int, b: int, x: seq<byte>, t: seq<byte>) {
    ExchangedBytes(s, a, b, x, t) == true
  }

  ghost predicate ExchangedBytes(s: seq<byte>, a: int, b: int, x: seq<byte>, t: seq<byte>) {
    0 <= a <= b <= |s| && t == s[..a] + x + s[b..]
  }

  /** t agrees with s before a, and from c on with s from b on. */
  ghost predicate Around(s: seq<byte>, a: int, b: int, t: seq<byte>, c: int) {
    SameAround(s, a, b, t, c) == true
  }

  ghost predicate SameAround(s: seq<byte>, a: int, b: int, t: seq<byte>, c: int) {
    && 0 <= a <= b <= |s| && a <= c <= |t|
    && forall key: Key :: Opens(key) && key == OfBytes ==> t[..a] == s[..a] && t[c..] == s[b..]
  }

  lemma AroundExchanged(s: seq<byte>, a: int, b: int, t: seq<byte>, c: int, x: seq<byte>)
    requires c == a + |x| && Around(s, a, b, t, c) && Holds(t, a, x)
    ensures Exchanged(s, a, b, x, t)
  {
    assert Opens(OfBytes);
    CutBetween(t, a, c);
  }

  lemma ExchangedAtEnd(s: seq<byte>, x: seq<byte>, t: seq<byte>)
    requires Exchanged(s, |s|, |s|, x, t)
    ensures t == s + x
  {
  }

  // ---------------------------------------------------------------- a block spliced

  /** t is s with newlen bytes in the place of oldlen bytes at q; the first of the old bytes are still there. */
  ghost predicate Spliced(s: seq<byte>, q: int, oldlen: int, newlen: int, t: seq<byte>) {
    SplicedBytes(s, q, oldlen, newlen, t) == true
  }

  ghost predicate SplicedBytes(s: seq<byte>, q: int, oldlen: int, newlen: int, t: seq<byte>) {
    && 0 <= q && 0 <= oldlen <= |s| - q && 0 <= newlen && |t| == |s| - oldlen + newlen
    && (forall i :: 0 <= i < q + Min(oldlen, newlen) ==> t[i] == s[i])
    && (forall i :: q + newlen <= i < |t| ==> t[i] == s[i - newlen + oldlen])
  }

  lemma SplicedLength(s: seq<byte>, q: int, oldlen: int, newlen: int, t: seq<byte>)
    requires Spliced(s, q, oldlen, newlen, t)
    ensures 0 <= q && q + newlen <= |t| == |s| - oldlen + newlen
  {
  }

  lemma SplicedAround(s: seq<byte>, a: int, q: int, oldlen: int, newlen: int, t: seq<byte>, b: int, c: int)
    requires Spliced(s, q, oldlen, newlen, t) && 0 <= a <= q && b == q + oldlen && c == q + newlen
    ensures Around(s, a, b, t, c)
  {
    assert forall i :: 0 <= i < a ==> t[..a][i] == s[..a][i];
    var x, y := t[q + newlen..], s[q + oldlen..];
    forall i | 0 <= i < |x| ensures x[i] == y[i] { assert x[i] == t[q + newlen + i] && y[i] == s[q + oldlen + i]; }
  }

  lemma SplicedHolds(s: seq<byte>, q: int, oldlen: int, newlen: int, t: seq<byte>, at: int, x: seq<byte>)
    requires Spliced(s, q, oldlen, newlen, t) && Holds(s, at, x) && at + |x| <= q + Min(oldlen, newlen)
    ensures Holds(t, at, x)
  {
    var y := t[at..at + |x|];
    forall i | 0 <= i < |x| ensures y[i] == x[i] {
      HoldsAt(s, at, x, i);
      assert y[i] == t[at + i];
    }
    IsHeld(t, at, x);
  }

  lemma HoldsPrefix(s: seq<byte>, at: int, x: seq<byte>, n: int)
    requires Holds(s, at, x) && 0 <= n <= |x|
    ensures Holds(s, at, x[..n])
  {
    CutAt(x, n);
    HoldsParts(s, at, x[..n], x[n..]);
  }

  // ---------------------------------------------------------------- bytes written over

  lemma Patch(t: seq<byte>, at: int, x: seq<byte>)
    requires 0 <= at <= |t| - |x|
    ensures IsPatched(t, at, x, Patched(t, at, x))
  {
  }

  lemma PatchedAround(s: seq<byte>, a: int, b: int, t: seq<byte>, c: int, at: int, x: seq<byte>, u: seq<byte>)
    requires Around(s, a, b, t, c) && IsPatched(t, at, x, u) && a <= at && at + |x| <= c
    ensures Around(s, a, b, u, c) && Holds(u, at, x)
  {
    assert Opens(OfBytes);
    assert u[..a] == t[..a];
    assert u[c..] == t[c..];
    assert u[at..at + |x|] == x;
  }

  lemma PatchedHolds(t: seq<byte>, at: int, x: seq<byte>, u: seq<byte>, q: int, y: seq<byte>)
    requires IsPatched(t, at, x, u) && Holds(t, q, y) && (q + |y| <= at || at + |x| <= q)
    ensures Holds(u, q, y)
  {
    assert Opens(OfBytes);
    assert u[q..q + |y|] == t[q..q + |y|];
  }

  // ---------------------------------------------------------------- two blocks of a buffer

  /** Both blocks after the bytes behind the splice were moved. */
  lemma SplicedBlocks(b: seq<byte>, c: seq<byte>, s: seq<byte>, t: seq<byte>, os: int, ot: int, q: int, oldlen: int,
                      newlen: int,
                      to: int, from: int, n: int)
    requires 0 <= os && os + |s| <= ot && ot + |t| <= |b| && s == b[os..os + |s|] && t == b[ot..ot + |t|]
    requires 0 <= q && 0 <= oldlen && 0 <= newlen && q + oldlen <= |s| && ot + |t| - oldlen + newlen <= |b|
    requires to == os + q + newlen && from == os + q + oldlen && n == ot + |t| - from && IsMoved(b, c, to, from, n)
    ensures Spliced(s, q, oldlen, newlen, c[os..os + |s| + newlen - oldlen])
    ensures c[ot + newlen - oldlen..ot + newlen - oldlen + |t|] == t
  {
    SplicedStruct(b, c, os, |s|, q, oldlen, newlen, to, from, n);
    SplicedStrings(b, c, to, from, n, ot, |t|);
  }

  /** c has n bytes of b moved. */
  ghost predicate IsMoved(b: seq<byte>, c: seq<byte>, to: int, from: int, n: int) {
    HasMoved(b, c, to, from, n) == true
  }

  ghost predicate HasMoved(b: seq<byte>, c: seq<byte>, to: int, from: int, n: int) {
    && 0 <= n && 0 <= from <= |b| - n && 0 <= to <= |b| - n && |c| == |b|
    && (forall i :: 0 <= i < to ==> c[i] == b[i])
    && (forall i :: to <= i < to + n ==> c[i] == b[i - to + from])
    && (forall i :: to + n <= i < |b| ==> c[i] == b[i])
  }

  lemma NothingMoved(b: seq<byte>, c: seq<byte>, to: int, from: int)
    requires IsMoved(b, c, to, from, 0)
    ensures c == b
  {
  }

  lemma MovedAt(b: seq<byte>, to: int, from: int, n: int)
    requires 0 <= n && 0 <= from <= |b| - n && 0 <= to <= |b| - n
    ensures IsMoved(b, Moved(b, to, from, n), to, from, n)
  {
  }

  lemma SplicedStruct(b: seq<byte>, c: seq<byte>, os: int, ss: int, q: int, oldlen: int, newlen: int, to: int,
                      from: int, n: int)
    requires to == os + q + newlen && from == os + q + oldlen && IsMoved(b, c, to, from, n) && 0 <= os
    requires 0 <= q && 0 <= oldlen && 0 <= newlen
    requires q + oldlen <= ss && ss - q - oldlen <= n
    ensures Spliced(b[os..os + ss], q, oldlen, newlen, c[os..os + ss + newlen - oldlen])
  {
    var s, t := b[os..os + ss], c[os..os + ss + newlen - oldlen];
    forall i | 0 <= i < q + Min(oldlen, newlen) ensures t[i] == s[i] {
      assert t[i] == c[os + i] && s[i] == b[os + i];
    }
    forall i | q + newlen <= i < |t| ensures t[i] == s[i - newlen + oldlen] {
      assert t[i] == c[os + i] && s[i - newlen + oldlen] == b[os + i - newlen + oldlen];
    }
  }

  lemma SplicedStrings(b: seq<byte>, c: seq<byte>, to: int, from: int, n: int, ot: int, st: int)
    requires IsMoved(b, c, to, from, n) && from <= ot && 0 <= st && ot + st == from + n
    ensures c[ot + to - from..ot + st + to - from] == b[ot..ot + st]
  {
    var s, t := b[ot..ot + st], c[ot + to - from..ot + st + to - from];
    forall i | 0 <= i < st ensures t[i] == s[i] {
      assert t[i] == c[ot + to - from + i] && s[i] == b[ot + i];
    }
  }

  lemma PatchedBlocks(b: seq<byte>, os: int, ss: int, ot: int, st: int, q: int, x: seq<byte>)
    requires 0 <= os && 0 <= ss && os + ss <= ot && 0 <= st && ot + st <= |b| && 0 <= q && q + |x| <= ss
    ensures var c := Patched(b, os + q, x);
      c[os..os + ss] == Patched(b[os..os + ss], q, x) && c[ot..ot + st] == b[ot..ot + st]
  {
  }

  lemma AppendedBlocks(b: seq<byte>, os: int, ss: int, ot: int, st: int, x: seq<byte>)
    requires 0 <= os && 0 <= ss && os + ss <= ot && 0 <= st && ot + st + |x| <= |b|
    ensures var c := Patched(b, ot + st, x);
      c[os..os + ss] == b[os..os + ss] && c[ot..ot + st + |x|] == b[ot..ot + st] + x
  {
  }

  lemma TruncatedBlocks(b: seq<byte>, n: int, from: int, to: int, rest: int)
    requires 0 <= from <= to <= n <= |b| && 0 <= rest <= n
    ensures b[..n][from..to] == b[from..to] && b[..n][rest..n] == b[rest..n]
  {
  }

  /** The bytes before a place stay, those moved there are found there. */
  lemma MovedBlocks(b: seq<byte>, os: int, ss: int, from: int)
    requires 0 <= os && 0 <= ss && os + ss <= from <= |b|
    ensures var c := Moved(b, os + ss, from, |b| - from);
      && c[..os] == b[..os] && c[os..os + ss] == b[os..os + ss]
      && c[os + ss..os + ss + |b| - from] == b[from..]
  {
  }

  lemma PatchedHead(b: seq<byte>, n: int, at: int, x: seq<byte>)
    requires 0 <= n <= at <= |b| - |x|
    ensures Patched(b, at, x)[..n] == b[..n]
  {
  }

  lemma MovedHead(b: seq<byte>, c: seq<byte>, os: int, to: int, from: int, n: int)
    requires IsMoved(b, c, to, from, n) && 0 <= os <= to
    ensures os <= |b| && c[..os] == b[..os]
  {
  }
}
