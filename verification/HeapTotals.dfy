/**
 Whole-heap facts: no byte of a pool is lost, bstats counts them all, and an idle heap is one free
 block per pool again.
 */
module HeapTotals {
  import opened HeapLayout
  import opened HeapSteps
  import opened Bget
  import opened Malloc

  // ---------------------------------------------------------------- conservation

  /** The sizes of the pools, read off their sentinels. */
  ghost function PoolBytes(bs: seq<Block>): int {
    if bs == [] then 0
    else PoolBytes(bs[..|bs| - 1]) +
         (var b := bs[|bs| - 1]; if b.kind.End? then b.Limit() - b.pool else 0)
  }

  ghost function AllBytes(bs: seq<Block>): int {
    Bytes(bs, Used) + Bytes(bs, Free) + Bytes(bs, End)
  }

  lemma AllBytesLast(bs: seq<Block>, b: Block)
    ensures AllBytes(bs + [b]) == AllBytes(bs) + b.size
  {
    BytesSplit(bs, [b], Used);
    BytesSplit(bs, [b], Free);
    BytesSplit(bs, [b], End);
    BytesSmall(b, b, Used);
    BytesSmall(b, b, Free);
    BytesSmall(b, b, End);
  }

  lemma {:induction false} PrefixBytes(bs: seq<Block>, top: int, i: int)
    requires Shape(bs, top) && 0 <= i <= |bs|
    ensures AllBytes(bs[..i]) == PoolBytes(bs[..i]) +
      (if i > 0 && !bs[i - 1].kind.End? then bs[i - 1].Limit() - bs[i - 1].pool else 0)
  {
    if i > 0 {
      PrefixBytes(bs, top, i - 1);
      assert bs[..i] == bs[..i - 1] + [bs[i - 1]] && bs[..i][..i - 1] == bs[..i - 1];
      AllBytesLast(bs[..i - 1], bs[i - 1]);
      if i > 1 { assert LinkedAt(bs, i - 1); }
    }
  }

  /** Allocated, free and sentinel bytes together are exactly the bytes of the pools. */
  lemma Conservation(m: Memory, head: int, bs: seq<Block>, fl: seq<int>)
    requires IsHeap(m, head, bs, fl)
    ensures Bytes(bs, Used) + Bytes(bs, Free) + Bytes(bs, End) == PoolBytes(bs)
  {
    assert bs[..|bs|] == bs;
    PrefixBytes(bs, |m|, |bs|);
  }

  /** When nothing is live, every pool is one free block and its sentinel again. */
  lemma IdlePools(m: Memory, head: int, bs: seq<Block>, fl: seq<int>, i: int)
    requires IsHeap(m, head, bs, fl) && Starts(Used, bs) == {} && 0 <= i < |bs|
    ensures bs[i].kind.End? ==>
      i > 0 && bs[i - 1].kind.Free? && bs[i - 1].at == bs[i].pool && bs[i - 1].Limit() == bs[i].at
    ensures bs[i].kind.Free? ==> i + 1 < |bs| && bs[i + 1].kind.End? && bs[i].at == bs[i].pool
  {
    assert forall k :: 0 <= k < |bs| && bs[k].kind == Used ==> bs[k].at in Starts(Used, bs);
    assert Sized(bs[i], |m|);
    if i > 0 { assert LinkedAt(bs, i); }
    if i > 1 { assert LinkedAt(bs, i - 1); }
    if bs[i].kind.Free? { HasNext(m, head, bs, fl, i); }
  }

  // ---------------------------------------------------------------- bstats

  /** Bytes of the blocks that the list names, in list order. */
  ghost function ListBytes(bs: seq<Block>, fl: seq<int>): int
    requires forall p :: 0 <= p < |fl| ==> fl[p] in Starts(Free, bs)
  {
    if fl == [] then 0
    else
      var n := |fl| - 1;
      assert fl[n] in Starts(Free, bs);
      ListBytes(bs, fl[..n]) + FreeSize(bs, fl[n])
  }

  ghost function FreeSize(bs: seq<Block>, a: int): int
    requires a in Starts(Free, bs)
  {
    var k :| 0 <= k < |bs| && bs[k].kind == Free && bs[k].at == a;
    bs[k].size
  }

  ghost predicate UniqueStarts(bs: seq<Block>) {
    forall i, j :: 0 <= i < j < |bs| ==> bs[i].at != bs[j].at
  }

  /** Taking one free block out of the count. */
  lemma OneFreeLess(bs: seq<Block>, k: int)
    requires UniqueStarts(bs) && 0 <= k < |bs| && bs[k].kind.Free?
    ensures var cs := bs[k := bs[k].(kind := Used)];
      && UniqueStarts(cs)
      && Bytes(cs, Free) == Bytes(bs, Free) - bs[k].size
      && Starts(Free, cs) == Starts(Free, bs) - {bs[k].at}
      && forall a :: a in Starts(Free, cs) ==> FreeSize(cs, a) == FreeSize(bs, a)
  {
    var cs := bs[k := bs[k].(kind := Used)];
    OneFreeSize(bs, k);
    forall a | a in Starts(Free, bs) - {bs[k].at} ensures a in Starts(Free, cs) && FreeSize(cs, a) == FreeSize(bs, a) {
      var i :| 0 <= i < |bs| && bs[i].kind == Free && bs[i].at == a;
      assert cs[i] == bs[i];
    }
    forall a | a in Starts(Free, cs) ensures a in Starts(Free, bs) - {bs[k].at} {
      var i :| 0 <= i < |cs| && cs[i].kind == Free && cs[i].at == a;
      assert cs[i] == bs[i];
    }
  }

  lemma OneFreeSize(bs: seq<Block>, k: int)
    requires 0 <= k < |bs| && bs[k].kind.Free?
    ensures Bytes(bs[k := bs[k].(kind := Used)], Free) == Bytes(bs, Free) - bs[k].size
  {
    var cs := bs[k := bs[k].(kind := Used)];
    assert cs == Recut(bs, k, k + 1, [cs[k]]) && bs[k..k + 1] == [bs[k]];
    BytesRecut(bs, k, k + 1, [cs[k]], Free);
    BytesSmall(bs[k], bs[k], Free);
    BytesSmall(cs[k], cs[k], Free);
  }

  lemma {:induction false} ListBytesSame(bs: seq<Block>, cs: seq<Block>, fl: seq<int>)
    requires forall p :: 0 <= p < |fl| ==> fl[p] in Starts(Free, bs) && fl[p] in Starts(Free, cs)
    requires forall p :: 0 <= p < |fl| ==> FreeSize(bs, fl[p]) == FreeSize(cs, fl[p])
    ensures ListBytes(bs, fl) == ListBytes(cs, fl)
  {
    if fl != [] {
      var n := |fl| - 1;
      assert forall p :: 0 <= p < n ==> fl[..n][p] == fl[p];
      ListBytesSame(bs, cs, fl[..n]);
    }
  }

  /** The sum over the free list is the sum over the free blocks, whatever the list's order. */
  lemma {:induction false} ListBytesIsFreeBytes(bs: seq<Block>, fl: seq<int>)
    requires UniqueStarts(bs) && Distinct(fl) && Elems(fl) == Starts(Free, bs)
    ensures (forall p :: 0 <= p < |fl| ==> fl[p] in Starts(Free, bs)) && ListBytes(bs, fl) == Bytes(bs, Free)
    decreases |fl|
  {
    assert forall p :: 0 <= p < |fl| ==> fl[p] in Elems(fl);
    if fl == [] {
      NoFreeBytes(bs);
    } else {
      var n := |fl| - 1;
      assert fl[n] in Starts(Free, bs);
      var k :| 0 <= k < |bs| && bs[k].kind == Free && bs[k].at == fl[n] && bs[k].size == FreeSize(bs, fl[n]);
      var cs := bs[k := bs[k].(kind := Used)];
      OneFreeLess(bs, k);
      WithoutElems(fl, n);
      assert Without(fl, n) == fl[..n];
      ListBytesIsFreeBytes(cs, fl[..n]);
      ListBytesSame(bs, cs, fl[..n]);
    }
  }

  lemma {:induction false} NoFreeBytes(bs: seq<Block>)
    requires Starts(Free, bs) == {}
    ensures Bytes(bs, Free) == 0
  {
    if bs != [] {
      assert bs == [bs[0]] + bs[1..];
      StartsSplit(Free, [bs[0]], bs[1..]);
      StartsOne(Free, bs[0]);
      NoFreeBytes(bs[1..]);
    }
  }

  lemma ShapeIsUnique(bs: seq<Block>, top: int)
    requires Shape(bs, top)
    ensures UniqueStarts(bs)
  {
    forall i, j | 0 <= i < j < |bs| ensures bs[i].at != bs[j].at {
      assert Sized(bs[i], top) && Sized(bs[j], top) && ApartAt(bs, i, j);
    }
  }

  /** n is the size of the largest free block, or -1 when there is none. */
  ghost predicate IsLargest(bs: seq<Block>, n: int) {
    LargestFree(bs, n) == true
  }

  ghost predicate LargestFree(bs: seq<Block>, n: int) {
    && (forall i :: 0 <= i < |bs| && bs[i].kind.Free? ==> bs[i].size <= n)
    && (n == -1 || exists i :: 0 <= i < |bs| && bs[i].kind.Free? && bs[i].size == n)
  }

  /** What the walk over the free list has counted when it reaches node p. */
  ghost predicate Counted(bs: seq<Block>, fl: seq<int>, p: int, totfree: int, maxfree: int) {
    CountedTo(bs, fl, p, totfree, maxfree) == true
  }

  ghost predicate CountedTo(bs: seq<Block>, fl: seq<int>, p: int, totfree: int, maxfree: int) {
    && 0 <= p <= |fl|
    && (forall q :: 0 <= q < |fl| ==> fl[q] in Starts(Free, bs))
    && totfree == ListBytes(bs, fl[..p])
    && (forall q, i :: 0 <= q < p && 0 <= i < |bs| && bs[i].at == fl[q] ==> bs[i].size <= maxfree)
    && (maxfree == -1 || exists i :: 0 <= i < |bs| && bs[i].kind.Free? && bs[i].size == maxfree)
  }

  lemma CountedNext(bs: seq<Block>, fl: seq<int>, p: int, totfree: int, maxfree: int, k: int)
    requires Counted(bs, fl, p, totfree, maxfree) && UniqueStarts(bs)
    requires p < |fl| && 0 <= k < |bs| && bs[k].kind.Free? && bs[k].at == fl[p]
    ensures Counted(bs, fl, p + 1, totfree + bs[k].size, if bs[k].size > maxfree then bs[k].size else maxfree)
  {
    assert fl[..p + 1][..p] == fl[..p] && fl[..p + 1][p] == fl[p];
    assert FreeSize(bs, fl[p]) == bs[k].size;
  }

  lemma CountedNone(bs: seq<Block>, fl: seq<int>)
    requires Listed(bs, fl)
    ensures Counted(bs, fl, 0, 0, -1)
  {
    assert forall q :: 0 <= q < |fl| ==> fl[q] in Elems(fl);
  }

  lemma CountedAll(bs: seq<Block>, fl: seq<int>, totfree: int, maxfree: int)
    requires Counted(bs, fl, |fl|, totfree, maxfree) && UniqueStarts(bs) && Listed(bs, fl)
    ensures totfree == Bytes(bs, Free) && IsLargest(bs, maxfree)
  {
    assert fl[..|fl|] == fl;
    ListBytesIsFreeBytes(bs, fl);
    forall i | 0 <= i < |bs| && bs[i].kind.Free? ensures bs[i].size <= maxfree {
      assert bs[i].at in Elems(fl);
      var q :| 0 <= q < |fl| && fl[q] == bs[i].at;
    }
  }

  /** The totals of bstats: bytes allocated, bytes free, and the largest free block (-1 if none). */
  method Bstats(h: Heap) returns (curalloc: int, totfree: int, maxfree: int)
    requires h.Valid()
    ensures curalloc == Bytes(h.blocks, Used) && totfree == Bytes(h.blocks, Free)
    ensures curalloc + totfree + Bytes(h.blocks, End) == PoolBytes(h.blocks)
    ensures IsLargest(h.blocks, maxfree)
  {
    Conservation(h.mem, h.head, h.blocks, h.free);
    curalloc := h.totalloc;
    totfree, maxfree := CountFree(h.mem, h.head, h.blocks, h.free);
  }

  /** The loop of bstats over the free list. */
  method CountFree(m: Memory, head: int, ghost bs: seq<Block>, ghost fl: seq<int>) returns (totfree: int, maxfree: int)
    requires IsHeap(m, head, bs, fl)
    ensures totfree == Bytes(bs, Free) && IsLargest(bs, maxfree)
  {
    ghost var p := 0;
    CountedNone(bs, fl);
    ListEnds(m, head, bs, fl, 0);
    totfree, maxfree := 0, -1;
    var b := Word(m, head + 8);
    while b != head
      invariant 0 <= p <= |fl| && b == RingAt(head, fl, p + 1)
      invariant Counted(bs, fl, p, totfree, maxfree)
      decreases |fl| - p
    {
      var size := Word(m, b + 4);
      CountNode(m, head, bs, fl, p, b, totfree, maxfree, size);
      totfree := totfree + size;
      if size > maxfree { maxfree := size; }
      b := Word(m, b + 8);
      p := p + 1;
    }
    ListEnds(m, head, bs, fl, p);
    ShapeIsUnique(bs, |m|);
    CountedAll(bs, fl, totfree, maxfree);
  }

  /** One node of the list. */
  lemma CountNode(m: Memory, head: int, bs: seq<Block>, fl: seq<int>, p: int, b: int, totfree: int, maxfree: int,
                  size: int)
    requires IsHeap(m, head, bs, fl) && 0 <= p <= |fl| && b == RingAt(head, fl, p + 1) && b != head
    requires size == Word(m, b + 4)
    requires Counted(bs, fl, p, totfree, maxfree)
    ensures p < |fl| && Word(m, b + 8) == RingAt(head, fl, p + 2)
    ensures Counted(bs, fl, p + 1, totfree + size, if size > maxfree then size else maxfree)
  {
    ShapeIsUnique(bs, |m|);
    ListEnds(m, head, bs, fl, p);
    var k := ListNode(m, head, bs, fl, p);
    CountedNext(bs, fl, p, totfree, maxfree, k);
  }
}
