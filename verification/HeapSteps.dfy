/**
 The operations of bget.c and bget_malloc.c on the heap layout: which blocks each one leaves behind,
 and a lemma saying that the words it writes (and no others) turn one heap into the next.
 */
module HeapSteps {
  import opened HeapLayout

  /** Block k of a heap is followed by another one unless it is a sentinel. */
  lemma HasNext(m: Memory, head: int, bs: seq<Block>, fl: seq<int>, k: int)
    requires IsHeap(m, head, bs, fl) && 0 <= k < |bs| && !bs[k].kind.End?
    ensures k + 1 < |bs| && bs[k + 1].at == bs[k].Limit() && bs[k + 1].pool == bs[k].pool
    ensures bs[k].kind.Free? ==> !bs[k + 1].kind.Free?
    ensures HeaderAt(m, bs, k) && HeaderAt(m, bs, k + 1)
    ensures Sized(bs[k], |m|) && Sized(bs[k + 1], |m|)
  {
    assert LinkedAt(bs, k + 1);
  }

  /** The block before a block whose prevfree word is not 0 is free and has that size. */
  lemma HasPrevious(m: Memory, head: int, bs: seq<Block>, fl: seq<int>, k: int)
    requires IsHeap(m, head, bs, fl) && 0 <= k < |bs|
    ensures Word(m, bs[k].at) == PrevWord(bs, k) && Word(m, bs[k].at + 4) == SizeWord(bs[k])
    ensures Word(m, bs[k].at) != 0 <==> k > 0 && bs[k - 1].kind.Free?
    ensures Word(m, bs[k].at) != 0 ==>
      && !bs[k].kind.Free?
      && bs[k - 1].at == bs[k].at - Word(m, bs[k].at) && bs[k - 1].size == Word(m, bs[k].at)
      && bs[k - 1].pool == bs[k].pool
  {
    assert HeaderAt(m, bs, k);
    if k > 0 {
      assert LinkedAt(bs, k) && Sized(bs[k - 1], |m|);
    }
  }

  /** The nodes of the free list are free blocks; none of them is the list head. */
  lemma FreeIndex(m: Memory, head: int, bs: seq<Block>, fl: seq<int>, p: int) returns (k: int)
    requires IsHeap(m, head, bs, fl) && 0 <= p < |fl|
    ensures 0 <= k < |bs| && bs[k].kind.Free? && bs[k].at == fl[p]
    ensures head !in Elems(fl) && HasLinks(m, fl[p])
  {
    assert fl[p] in Elems(fl) && fl[p] in Starts(Free, bs);
    k :| 0 <= k < |bs| && bs[k].kind.Free? && bs[k].at == fl[p];
    assert Sized(bs[k], |m|);
    HeadIsNotFree(m, head, bs, fl);
  }

  lemma HeadIsNotFree(m: Memory, head: int, bs: seq<Block>, fl: seq<int>)
    requires IsHeap(m, head, bs, fl)
    ensures head !in Elems(fl)
  {
    forall k | 0 <= k < |bs| && bs[k].kind.Free? ensures bs[k].at != head {
      assert HeadApart(head, bs[k]) && Sized(bs[k], |m|);
    }
  }

  /** Walking the list: what the loads at node p give. */
  lemma ListNode(m: Memory, head: int, bs: seq<Block>, fl: seq<int>, p: int) returns (k: int)
    requires IsHeap(m, head, bs, fl) && 0 <= p < |fl|
    ensures 0 <= k < |bs| && bs[k].kind.Free? && bs[k].at == fl[p]
    ensures Word(m, fl[p] + 4) == bs[k].size && Word(m, fl[p] + 8) == RingAt(head, fl, p + 2)
  {
    k := FreeIndex(m, head, bs, fl, p);
    assert HeaderAt(m, bs, k) && RingLink(m, head, fl, p + 1);
  }

  lemma ListEnds(m: Memory, head: int, bs: seq<Block>, fl: seq<int>, p: int)
    requires IsHeap(m, head, bs, fl) && 0 <= p <= |fl|
    ensures Word(m, head + 8) == RingAt(head, fl, 1)
    ensures RingAt(head, fl, p + 1) == head <==> p == |fl|
  {
    assert RingLink(m, head, fl, 0);
    HeadIsNotFree(m, head, bs, fl);
    if p < |fl| { assert fl[p] in Elems(fl); }
  }

  lemma PositionOf(m: Memory, head: int, bs: seq<Block>, fl: seq<int>, k: int) returns (p: int)
    requires IsHeap(m, head, bs, fl) && 0 <= k < |bs| && bs[k].kind.Free?
    ensures 0 <= p < |fl| && fl[p] == bs[k].at
  {
    assert bs[k].at in Starts(Free, bs);
    p :| 0 <= p < |fl| && fl[p] == bs[k].at;
  }

  /** Blocks that start at the same address are the same block. */
  lemma SameBlock(bs: seq<Block>, top: int, i: int, j: int)
    requires Shape(bs, top) && 0 <= i < |bs| && 0 <= j < |bs|
    ensures bs[i].at == bs[j].at ==> i == j
  {
    assert Sized(bs[i], top) && Sized(bs[j], top);
    if i < j { assert ApartAt(bs, i, j); }
    if j < i { assert ApartAt(bs, j, i); }
  }

  /** The free list survives any write that spares the link words. */
  lemma RingSurvives(m: Memory, m': Memory, head: int, bs: seq<Block>, fl: seq<int>)
    requires IsHeap(m, head, bs, fl) && |m'| == |m|
    requires forall c :: InLinks(head, bs, c) ==> Word(m', c) == Word(m, c)
    ensures Ring(m', head, fl)
  {
    forall i | 0 <= i <= |fl|
      ensures var a := RingAt(head, fl, i); Word(m', a + 8) == Word(m, a + 8) && Word(m', a + 12) == Word(m, a + 12)
    {
      NodeLinks(m, head, bs, fl, i);
    }
    RingIsKept(m, m', head, fl);
  }

  lemma NodeLinks(m: Memory, head: int, bs: seq<Block>, fl: seq<int>, i: int)
    requires IsHeap(m, head, bs, fl)
    ensures var a := RingAt(head, fl, i); forall c :: a + 8 <= c < a + 16 ==> InLinks(head, bs, c)
  {
    if 1 <= i <= |fl| {
      var k := FreeIndex(m, head, bs, fl, i - 1);
    }
  }

  lemma NodeIsLink(m: Memory, head: int, bs: seq<Block>, fl: seq<int>, c: int)
    requires IsHeap(m, head, bs, fl) && NodeCell(head, fl, c)
    ensures InLinks(head, bs, c)
  {
    if !(head + 8 <= c < head + 16) {
      var p :| 0 <= p < |fl| && fl[p] + 8 <= c < fl[p] + 16;
      var k := FreeIndex(m, head, bs, fl, p);
    }
  }

  /** A free node lies apart from anything inside another block. */
  lemma FreeGap(m: Memory, head: int, bs: seq<Block>, fl: seq<int>, p: int, k: int, x: int)
    requires IsHeap(m, head, bs, fl) && 0 <= p < |fl|
    requires 0 <= k < |bs| && bs[k].at != fl[p] && bs[k].at <= x && x + MIN_BLOCK <= bs[k].Limit()
    ensures Gap(fl[p], x)
  {
    var r := FreeIndex(m, head, bs, fl, p);
    assert Sized(bs[r], |m|) && Sized(bs[k], |m|);
    assert if r < k then ApartAt(bs, r, k) else ApartAt(bs, k, r);
  }

  lemma FreeListSpaced(m: Memory, head: int, bs: seq<Block>, fl: seq<int>)
    requires IsHeap(m, head, bs, fl)
    ensures Spaced(head, fl)
  {
    forall p | 0 <= p < |fl| ensures Gap(head, fl[p]) {
      var r := FreeIndex(m, head, bs, fl, p);
      assert Sized(bs[r], |m|) && HeadApart(head, bs[r]);
    }
    forall p, q | 0 <= p < q < |fl| ensures Gap(fl[p], fl[q]) {
      var r := FreeIndex(m, head, bs, fl, q);
      assert Sized(bs[r], |m|);
      FreeGap(m, head, bs, fl, p, r, fl[q]);
    }
  }

  /** Room inside an allocated block can join the free list. */
  lemma RoomForNode(m: Memory, head: int, bs: seq<Block>, fl: seq<int>, k: int, x: int)
    requires IsHeap(m, head, bs, fl) && 0 <= k < |bs| && bs[k].kind.Used?
    requires bs[k].at <= x && x + MIN_BLOCK <= bs[k].Limit()
    ensures Spaced(head, fl + [x]) && HasLinks(m, x) && x !in Elems(fl)
    ensures forall c :: NodeCell(head, fl, c) ==> c < bs[k].at || bs[k].Limit() <= c
  {
    FreeListSpaced(m, head, bs, fl);
    assert Sized(bs[k], |m|) && HeadApart(head, bs[k]);
    forall p | 0 <= p < |fl| ensures fl[p] != bs[k].at && Gap(fl[p], x) {
      var r := FreeIndex(m, head, bs, fl, p);
      SameBlock(bs, |m|, r, k);
      FreeGap(m, head, bs, fl, p, k, x);
    }
    var gl := fl + [x];
    forall p, q | 0 <= p < q < |gl| ensures Gap(gl[p], gl[q]) {
      if q < |fl| { assert Gap(fl[p], fl[q]); }
    }
    forall c | NodeCell(head, fl, c) ensures c < bs[k].at || bs[k].Limit() <= c {
      NodeIsLink(m, head, bs, fl, c);
      if bs[k].at <= c < bs[k].Limit() { IsNotLink(m, head, bs, fl, k, c); }
    }
  }

  // ---------------------------------------------------------------- bget: taking from a free block

  /** The allocated block lies at the tail of the free block it is cut from. */
  function TailCut(b: Block, n: int): seq<Block> {
    [Block(b.at, b.size - n, Free, b.pool), Block(b.Limit() - n, n, Used, b.pool)]
  }

  ghost predicate Cuttable(b: Block, n: int) {
    b.kind.Free? && n % QUANTUM == 0 && MIN_BLOCK <= n && MIN_BLOCK < b.size - n
  }

  lemma TailCutSized(b: Block, top: int, n: int)
    requires Sized(b, top) && Cuttable(b, n)
    ensures Sized(TailCut(b, n)[0], top) && Sized(TailCut(b, n)[1], top)
  {
    Multiples(b.size, n);
    Multiples(b.at, b.size - n);
  }

  lemma SplitFits(bs: seq<Block>, top: int, k: int, n: int)
    requires Shape(bs, top) && 0 <= k < |bs| - 1 && Cuttable(bs[k], n)
    ensures Fits(bs, k, k + 1, TailCut(bs[k], n), top)
  {
    TailCutSized(bs[k], top, n);
    assert LinkedAt(bs, k + 1);
    if k > 0 { assert LinkedAt(bs, k); }
    assert LinkedAt(TailCut(bs[k], n), 1);
  }

  lemma SplitIsHeap(m: Memory, m': Memory, head: int, bs: seq<Block>, fl: seq<int>, k: int, n: int)
    requires IsHeap(m, head, bs, fl) && 0 <= k < |bs| - 1 && Cuttable(bs[k], n)
    requires |m'| == |m|
    requires Word(m', bs[k].at + 4) == bs[k].size - n
    requires var ba := bs[k].Limit() - n; Word(m', ba) == bs[k].size - n && Word(m', ba + 4) == -n
    requires Word(m', bs[k + 1].at) == 0
    requires forall c ::
      (!(bs[k].at + 4 <= c < bs[k].at + 8) && !(bs[k].Limit() - n <= c < bs[k].Limit() - n + 8)
       && !(bs[k].Limit() <= c < bs[k].Limit() + 4)) ==> Word(m', c) == Word(m, c)
    ensures IsHeap(m', head, Recut(bs, k, k + 1, TailCut(bs[k], n)), fl)
    ensures KeepsLive(m, m', bs, Recut(bs, k, k + 1, TailCut(bs[k], n)), {})
  {
    HasNext(m, head, bs, fl, k);
    SplitFits(bs, |m|, k, n);
    var mid := TailCut(bs[k], n);
    assert bs[k..k + 1] == [bs[k]];
    StartsOne(Free, bs[k]);
    StartsTwo(Free, mid[0], mid[1]);
    RecutStarts(Free, bs, |m|, k, k + 1, mid);
    forall c | InLinks(head, bs, c) ensures Word(m', c) == Word(m, c) {
      if bs[k].at + 4 <= c < bs[k].at + 8 || bs[k].Limit() - n <= c < bs[k].Limit() - n + 8 {
        IsNotLink(m, head, bs, fl, k, c);
      } else if bs[k].Limit() <= c < bs[k].Limit() + 4 {
        IsNotLink(m, head, bs, fl, k + 1, c);
      }
    }
    RingSurvives(m, m', head, bs, fl);
    assert MidHeaderAt(m', PrevWord(bs, k), mid, 0) && MidHeaderAt(m', PrevWord(bs, k), mid, 1);
    Rebuild(m, m', head, bs, fl, k, k + 1, mid, fl, {});
  }

  /** A write confined to list links leaves every header alone. */
  lemma HeadersOutsideList(m: Memory, m': Memory, head: int, bs: seq<Block>, fl: seq<int>, k: int)
    requires IsHeap(m, head, bs, fl) && 0 <= k < |bs|
    requires forall c :: !NodeCell(head, fl, c) ==> Word(m', c) == Word(m, c)
    ensures Word(m', bs[k].at) == PrevWord(bs, k) && Word(m', bs[k].at + 4) == SizeWord(bs[k])
    ensures forall c :: bs[k].at <= c < bs[k].at + 8 ==> !InLinks(head, bs, c) && !NodeCell(head, fl, c)
  {
    assert HeaderAt(m, bs, k) && Sized(bs[k], |m|);
    forall c | bs[k].at <= c < bs[k].at + 8 ensures !InLinks(head, bs, c) && !NodeCell(head, fl, c) {
      IsNotLink(m, head, bs, fl, k, c);
      if NodeCell(head, fl, c) { NodeIsLink(m, head, bs, fl, c); }
    }
  }

  lemma NodeCellsShrink(head: int, fl: seq<int>, p: int, c: int)
    requires 0 <= p < |fl| && NodeCell(head, Without(fl, p), c)
    ensures NodeCell(head, fl, c)
  {
    if !(head + 8 <= c < head + 16) {
      var gl := Without(fl, p);
      var q :| 0 <= q < |gl| && gl[q] + 8 <= c < gl[q] + 16;
      assert gl[q] == fl[if q < p then q else q + 1];
    }
  }

  /** Header words are no part of any list node, so writing them keeps a ring. */
  lemma RingKeptOutside(m: Memory, m': Memory, head: int, fl: seq<int>)
    requires Ring(m, head, fl) && |m'| == |m|
    requires forall c :: NodeCell(head, fl, c) ==> Word(m', c) == Word(m, c)
    ensures Ring(m', head, fl)
  {
    forall i | 0 <= i <= |fl|
      ensures var a := RingAt(head, fl, i); Word(m', a + 8) == Word(m, a + 8) && Word(m', a + 12) == Word(m, a + 12)
    {
      NodeWords(head, fl, i);
    }
    RingIsKept(m, m', head, fl);
  }

  /** m1 is m with node p unlinked; m' marks block k allocated. */
  lemma TakenIsHeap(m: Memory, m1: Memory, m': Memory, head: int, bs: seq<Block>, fl: seq<int>, k: int, p: int)
    requires IsHeap(m, head, bs, fl) && 0 <= k < |bs| - 1 && bs[k].kind.Free?
    requires 0 <= p < |fl| && fl[p] == bs[k].at
    requires |m| == |m1| == |m'| && Ring(m1, head, Without(fl, p))
    requires forall c :: !NodeCell(head, fl, c) ==> Word(m1, c) == Word(m, c)
    requires Word(m', bs[k].at + 4) == -bs[k].size && Word(m', bs[k].Limit()) == 0
    requires forall c :: !(bs[k].at + 4 <= c < bs[k].at + 8) && !(bs[k].Limit() <= c < bs[k].Limit() + 4)
                         ==> Word(m', c) == Word(m1, c)
    ensures IsHeap(m', head, Recut(bs, k, k + 1, [bs[k].(kind := Used)]), Without(fl, p))
    ensures KeepsLive(m, m', bs, Recut(bs, k, k + 1, [bs[k].(kind := Used)]), {})
  {
    HasNext(m, head, bs, fl, k);
    HeadersOutsideList(m, m1, head, bs, fl, k);
    HeadersOutsideList(m, m1, head, bs, fl, k + 1);
    var mid := [bs[k].(kind := Used)];
    if k > 0 { assert LinkedAt(bs, k); }
    assert Fits(bs, k, k + 1, mid, |m|);
    forall c | NodeCell(head, Without(fl, p), c) ensures Word(m', c) == Word(m1, c) {
      NodeCellsShrink(head, fl, p, c);
    }
    RingKeptOutside(m1, m', head, Without(fl, p));
    assert bs[k..k + 1] == [bs[k]];
    StartsOne(Free, bs[k]);
    StartsOne(Free, mid[0]);
    WithoutElems(fl, p);
    RecutStarts(Free, bs, |m|, k, k + 1, mid);
    forall c | 0 <= c < |m| && !(bs[k].at <= c < bs[k + 1].at + 4) && !InLinks(head, bs, c)
      ensures Word(m', c) == Word(m, c)
    {
      if NodeCell(head, fl, c) { NodeIsLink(m, head, bs, fl, c); }
    }
    assert MidHeaderAt(m', PrevWord(bs, k), mid, 0);
    Rebuild(m, m', head, bs, fl, k, k + 1, mid, Without(fl, p), {});
  }

  // ---------------------------------------------------------------- brel: joining free neighbours

  function PrevFree(bs: seq<Block>, k: int): bool
    requires 0 <= k < |bs|
  {
    k > 0 && bs[k - 1].kind.Free?
  }

  function NextFree(bs: seq<Block>, k: int): bool
    requires 0 <= k < |bs|
  {
    k + 1 < |bs| && bs[k + 1].kind.Free?
  }

  /** The first block of the run that a release of block k joins. */
  function RunStart(bs: seq<Block>, k: int): int
    requires 0 <= k < |bs|
  {
    if PrevFree(bs, k) then k - 1 else k
  }

  function RunEnd(bs: seq<Block>, k: int): int
    requires 0 <= k < |bs|
  {
    if NextFree(bs, k) then k + 2 else k + 1
  }

  function Joined(bs: seq<Block>, k: int): Block
    requires 0 <= k < |bs|
  {
    var i, j := RunStart(bs, k), RunEnd(bs, k);
    Block(bs[i].at, bs[j - 1].Limit() - bs[i].at, Free, bs[k].pool)
  }

  /** Releasing block k joins it with its free neighbours. */
  function Released(bs: seq<Block>, k: int): seq<Block>
    requires 0 <= k < |bs|
  {
    Recut(bs, RunStart(bs, k), RunEnd(bs, k), [Joined(bs, k)])
  }

  lemma JoinedExtent(bs: seq<Block>, top: int, k: int)
    requires Shape(bs, top) && 0 <= k < |bs| && bs[k].kind.Used?
    ensures RunEnd(bs, k) < |bs| && Joined(bs, k).Limit() == bs[RunEnd(bs, k)].at
    ensures Joined(bs, k).size ==
      (if PrevFree(bs, k) then bs[k - 1].size else 0) + bs[k].size + (if NextFree(bs, k) then bs[k + 1].size else 0)
    ensures bs[RunStart(bs, k)].pool == bs[k].pool == bs[RunEnd(bs, k)].pool
  {
    assert LinkedAt(bs, k + 1);
    if NextFree(bs, k) { assert LinkedAt(bs, k + 2); }
    if PrevFree(bs, k) { assert LinkedAt(bs, k); }
  }

  lemma JoinedSize(bs: seq<Block>, top: int, k: int)
    requires Shape(bs, top) && 0 <= k < |bs| && bs[k].kind.Used?
    ensures RunEnd(bs, k) < |bs| && Joined(bs, k).Limit() == bs[RunEnd(bs, k)].at
    ensures Joined(bs, k).size ==
      (if PrevFree(bs, k) then bs[k - 1].size else 0) + bs[k].size + (if NextFree(bs, k) then bs[k + 1].size else 0)
    ensures Sized(Joined(bs, k), top)
    ensures bs[RunStart(bs, k)].pool == bs[k].pool
  {
    JoinedExtent(bs, top, k);
    assert Sized(bs[RunStart(bs, k)], top) && Sized(bs[k], top) && Sized(bs[k + 1], top)
      && Sized(bs[RunEnd(bs, k)], top);
    var front := if PrevFree(bs, k) then bs[k - 1].size else 0;
    assert front % QUANTUM == 0;
    Multiples(front, bs[k].size);
    Multiples(front + bs[k].size, bs[k + 1].size);
  }

  lemma ReleasedFits(bs: seq<Block>, top: int, k: int)
    requires Shape(bs, top) && 0 <= k < |bs| && bs[k].kind.Used?
    ensures Fits(bs, RunStart(bs, k), RunEnd(bs, k), [Joined(bs, k)], top)
  {
    JoinedSize(bs, top, k);
    if NextFree(bs, k) { assert LinkedAt(bs, k + 2); }
    if PrevFree(bs, k) && k > 1 { assert LinkedAt(bs, k - 1); }
  }

  /** The list node made of an allocated block does not cover its own header. */
  lemma OwnHeader(m: Memory, head: int, bs: seq<Block>, fl: seq<int>, k: int)
    requires IsHeap(m, head, bs, fl) && 0 <= k < |bs| && bs[k].kind.Used?
    ensures forall c :: bs[k].at <= c < bs[k].at + 8 ==> !NodeCell(head, fl + [bs[k].at], c)
  {
    HeadersOutsideList(m, m, head, bs, fl, k);
    NodeCellAppended(head, fl, bs[k].at);
  }

  lemma NodeCellAppended(head: int, fl: seq<int>, x: int)
    ensures forall c :: NodeCell(head, fl + [x], c) <==> NodeCell(head, fl, c) || x + 8 <= c < x + 16
  {
    var gl := fl + [x];
    assert gl[|fl|] == x && forall p :: 0 <= p < |fl| ==> gl[p] == fl[p];
  }

  /** What the free list looks like once block k has been joined with its predecessor or listed. */
  function ListAfterJoin(bs: seq<Block>, fl: seq<int>, k: int): seq<int>
    requires 0 <= k < |bs|
  {
    if PrevFree(bs, k) then fl else fl + [bs[k].at]
  }

  /** Joining backwards leaves the next block's header alone. */
  lemma NextHeader(m: Memory, m': Memory, head: int, bs: seq<Block>, fl: seq<int>, k: int)
    requires IsHeap(m, head, bs, fl) && 0 <= k < |bs| - 1 && bs[k].kind.Used?
    requires var b := bs[RunStart(bs, k)].at; forall c ::
      !(b + 4 <= c < b + 8) && !NodeCell(head, ListAfterJoin(bs, fl, k), c) ==> Word(m', c) == Word(m, c)
    ensures Word(m', bs[k + 1].at + 4) == SizeWord(bs[k + 1])
    ensures forall c :: bs[k + 1].at <= c < bs[k + 1].at + 8 ==> !NodeCell(head, ListAfterJoin(bs, fl, k), c)
  {
    HeadersOutsideList(m, m, head, bs, fl, k + 1);
    NodeCellAppended(head, fl, bs[k].at);
    HasNext(m, head, bs, fl, k);
    HasPrevious(m, head, bs, fl, k);
    if PrevFree(bs, k) { assert Sized(bs[k - 1], |m|); }
  }

  /** Where things are when block k is about to be joined forwards. */
  lemma JoinFacts(m: Memory, head: int, bs: seq<Block>, fl: seq<int>, k: int)
    requires IsHeap(m, head, bs, fl) && 0 <= k < |bs| - 1 && bs[k].kind.Used?
    ensures bs[k + 1].at == bs[k].Limit() && bs[k].Limit() + BHEAD <= |m|
    ensures var b := bs[RunStart(bs, k)].at; 0 <= b && b + MIN_BLOCK <= bs[k].Limit()
    ensures SizeWord(bs[k + 1]) > 0 <==> NextFree(bs, k)
    ensures NextFree(bs, k) ==> k + 2 < |bs| && bs[k + 2].at == bs[k + 1].Limit() && bs[k + 2].Limit() <= |m|
  {
    HasNext(m, head, bs, fl, k);
    HasPrevious(m, head, bs, fl, k);
    if PrevFree(bs, k) { assert Sized(bs[k - 1], |m|); }
    if NextFree(bs, k) { HasNext(m, head, bs, fl, k + 1); }
  }

  lemma ReleaseListed(bs: seq<Block>, top: int, k: int, fl: seq<int>, fl': seq<int>)
    requires Shape(bs, top) && 0 <= k < |bs| && bs[k].kind.Used? && Listed(bs, fl) && Distinct(fl')
    requires Elems(fl') == Elems(fl) + {bs[RunStart(bs, k)].at} - (if NextFree(bs, k) then {bs[k + 1].at} else {})
    ensures Listed(Released(bs, k), fl')
  {
    var i, j := RunStart(bs, k), RunEnd(bs, k);
    JoinedSize(bs, top, k);
    assert bs[i..j] == bs[i..k] + ([bs[k]] + bs[k + 1..j]);
    StartsSplit(Free, bs[i..k], [bs[k]] + bs[k + 1..j]);
    StartsSplit(Free, [bs[k]], bs[k + 1..j]);
    StartsOne(Free, bs[k]);
    assert PrevFree(bs, k) ==> bs[i..k] == [bs[k - 1]];
    assert NextFree(bs, k) ==> bs[k + 1..j] == [bs[k + 1]];
    StartsOne(Free, bs[if k > 0 then k - 1 else 0]);
    StartsOne(Free, bs[if k + 1 < |bs| then k + 1 else 0]);
    StartsOne(Free, Joined(bs, k));
    RecutStarts(Free, bs, top, i, j, [Joined(bs, k)]);
  }

  /** Everything a release writes lies in the run it joins, in the next back link or in list links. */
  lemma ReleaseWrites(m: Memory, m': Memory, head: int, bs: seq<Block>, fl: seq<int>, k: int)
    requires IsHeap(m, head, bs, fl) && 0 <= k < |bs| - 1 && bs[k].kind.Used? && RunEnd(bs, k) < |bs|
    requires |m'| == |m|
    requires forall c ::
      (!(Joined(bs, k).at + 4 <= c < Joined(bs, k).at + 8)
       && !(bs[RunEnd(bs, k)].at <= c < bs[RunEnd(bs, k)].at + 4)
       && !NodeCell(head, ListAfterJoin(bs, fl, k), c)) ==> Word(m', c) == Word(m, c)
    ensures WritesRun(m, m', head, bs, RunStart(bs, k), RunEnd(bs, k))
    ensures Word(m', Joined(bs, k).at) == PrevWord(bs, RunStart(bs, k))
  {
    var i, j := RunStart(bs, k), RunEnd(bs, k);
    JoinedSize(bs, |m|, k);
    HeadersOutsideList(m, m, head, bs, fl, i);
    NodeCellAppended(head, fl, bs[k].at);
    assert Sized(bs[k], |m|);
    assert bs[i].at <= bs[k].at && bs[k].Limit() <= bs[j].at && (i < k ==> bs[i].at + MIN_BLOCK <= bs[k].at) by {
      if PrevFree(bs, k) { assert Sized(bs[k - 1], |m|) && LinkedAt(bs, k); }
    }
    forall c | 0 <= c < |m| && !(bs[i].at <= c < bs[j].at + 4) && !InLinks(head, bs, c)
      ensures Word(m', c) == Word(m, c)
    {
      if NodeCell(head, fl, c) { NodeIsLink(m, head, bs, fl, c); }
    }
  }

  /** m' has the joined block's size in its header and in the next block's back link. */
  lemma ReleasedIsHeap(m: Memory, m': Memory, head: int, bs: seq<Block>, fl: seq<int>, k: int, fl': seq<int>)
    requires IsHeap(m, head, bs, fl) && 0 <= k < |bs| - 1 && bs[k].kind.Used? && RunEnd(bs, k) < |bs|
    requires Ring(m', head, fl') && Listed(Released(bs, k), fl')
    requires |m'| == |m| && Word(m', Joined(bs, k).at + 4) == Joined(bs, k).size
    requires Word(m', bs[RunEnd(bs, k)].at) == Joined(bs, k).size
    requires forall c ::
      (!(Joined(bs, k).at + 4 <= c < Joined(bs, k).at + 8)
       && !(bs[RunEnd(bs, k)].at <= c < bs[RunEnd(bs, k)].at + 4)
       && !NodeCell(head, ListAfterJoin(bs, fl, k), c)) ==> Word(m', c) == Word(m, c)
    ensures IsHeap(m', head, Released(bs, k), fl')
    ensures KeepsLive(m, m', bs, Released(bs, k), {bs[k].at})
  {
    var i, j := RunStart(bs, k), RunEnd(bs, k);
    ReleaseWrites(m, m', head, bs, fl, k);
    ReleasedFits(bs, |m|, k);
    assert MidHeaderAt(m', PrevWord(bs, i), [Joined(bs, k)], 0);
    Rebuild(m, m', head, bs, fl, i, j, [Joined(bs, k)], fl', {bs[k].at});
  }

  /** The headers a release rewrites are no list links. */
  lemma JoinHeaders(m: Memory, head: int, bs: seq<Block>, fl: seq<int>, k: int)
    requires IsHeap(m, head, bs, fl) && 0 <= k < |bs| - 1 && bs[k].kind.Used? && RunEnd(bs, k) < |bs|
    ensures forall c, q :: (q == RunStart(bs, k) || q == k + 1 || q == RunEnd(bs, k)) && bs[q].at <= c < bs[q].at + 8
                           ==> !NodeCell(head, ListAfterJoin(bs, fl, k), c)
  {
    NodeCellAppended(head, fl, bs[k].at);
    JoinedSize(bs, |m|, k);
    assert Sized(bs[k], |m|);
    forall c, q | (q == RunStart(bs, k) || q == k + 1 || q == RunEnd(bs, k)) && bs[q].at <= c < bs[q].at + 8
      ensures !NodeCell(head, ListAfterJoin(bs, fl, k), c)
    {
      HeadersOutsideList(m, m, head, bs, fl, q);
      if q != k {
        assert Sized(bs[q], |m|);
        assert if q < k then ApartAt(bs, q, k) else ApartAt(bs, k, q);
      }
    }
  }

  lemma JoinedElems(m: Memory, head: int, bs: seq<Block>, fl: seq<int>, k: int)
    requires IsHeap(m, head, bs, fl) && 0 <= k < |bs| && bs[k].kind.Used?
    ensures Distinct(ListAfterJoin(bs, fl, k))
    ensures Elems(ListAfterJoin(bs, fl, k)) == Elems(fl) + {bs[RunStart(bs, k)].at}
  {
    if PrevFree(bs, k) {
      assert bs[k - 1].at in Starts(Free, bs);
    } else {
      assert Sized(bs[k], |m|);
      RoomForNode(m, head, bs, fl, k, bs[k].at);
      AppendElems(fl, bs[k].at);
    }
  }

  // ---------------------------------------------------------------- trimming an allocated block

  ghost predicate Trimmable(b: Block, n: int) {
    b.kind.Used? && n % QUANTUM == 0 && MIN_BLOCK <= n && n + MIN_BLOCK <= b.size
  }

  /** Giving the first n bytes of block k back: to a free predecessor, or as a block of their own. */
  function FrontCut(bs: seq<Block>, k: int, n: int): seq<Block>
    requires 0 <= k < |bs|
  {
    var b := bs[k];
    var i := RunStart(bs, k);
    [Block(bs[i].at, b.at + n - bs[i].at, Free, b.pool), Block(b.at + n, b.size - n, Used, b.pool)]
  }

  /** Keeping the first n bytes of block k: the rest goes to a free successor, or stands alone. */
  function BackCut(bs: seq<Block>, k: int, n: int): seq<Block>
    requires 0 <= k < |bs|
  {
    var b := bs[k];
    [Block(b.at, n, Used, b.pool), Block(b.at + n, bs[RunEnd(bs, k) - 1].Limit() - b.at - n, Free, b.pool)]
  }

  lemma FrontCutSize(bs: seq<Block>, top: int, k: int, n: int)
    requires Shape(bs, top) && 0 <= k < |bs|
    ensures bs[RunStart(bs, k)].pool == bs[k].pool
    ensures FrontCut(bs, k, n)[0].size == (if PrevFree(bs, k) then bs[k - 1].size else 0) + n
  {
    if PrevFree(bs, k) { assert LinkedAt(bs, k); }
  }

  lemma FrontCutSized(bs: seq<Block>, top: int, k: int, n: int)
    requires Shape(bs, top) && 0 <= k < |bs| && Trimmable(bs[k], n)
    ensures Sized(FrontCut(bs, k, n)[0], top) && Sized(FrontCut(bs, k, n)[1], top)
  {
    FrontCutSize(bs, top, k, n);
    assert Sized(bs[k], top) && Sized(bs[RunStart(bs, k)], top);
    Multiples(bs[k].size, n);
    Multiples(bs[k].at, n);
    Multiples(bs[RunStart(bs, k)].size, n);
  }

  lemma FrontCutFits(bs: seq<Block>, top: int, k: int, n: int)
    requires Shape(bs, top) && 0 <= k < |bs| - 1 && Trimmable(bs[k], n)
    ensures Fits(bs, RunStart(bs, k), k + 1, FrontCut(bs, k, n), top)
  {
    FrontCutSize(bs, top, k, n);
    FrontCutSized(bs, top, k, n);
    assert LinkedAt(bs, k + 1);
    if PrevFree(bs, k) && k > 1 { assert LinkedAt(bs, k - 1); }
    assert LinkedAt(FrontCut(bs, k, n), 1);
  }

  lemma Multiples(a: int, b: int)
    requires a % QUANTUM == 0 && b % QUANTUM == 0
    ensures (a + b) % QUANTUM == 0 && (a - b) % QUANTUM == 0
  {
  }

  lemma BackCutSize(bs: seq<Block>, top: int, k: int, n: int)
    requires Shape(bs, top) && 0 <= k < |bs| - 1 && Trimmable(bs[k], n)
    ensures RunEnd(bs, k) < |bs| && BackCut(bs, k, n)[1].Limit() == bs[RunEnd(bs, k)].at
    ensures BackCut(bs, k, n)[1].size == bs[k].size - n + (if NextFree(bs, k) then bs[k + 1].size else 0)
    ensures bs[RunEnd(bs, k)].pool == bs[k].pool
  {
    assert LinkedAt(bs, k + 1);
    if NextFree(bs, k) { assert LinkedAt(bs, k + 2); }
  }

  lemma BackCutSized(bs: seq<Block>, top: int, k: int, n: int)
    requires Shape(bs, top) && 0 <= k < |bs| - 1 && Trimmable(bs[k], n)
    ensures Sized(BackCut(bs, k, n)[0], top) && Sized(BackCut(bs, k, n)[1], top)
  {
    BackCutSize(bs, top, k, n);
    assert Sized(bs[k], top) && Sized(bs[k + 1], top) && Sized(bs[RunEnd(bs, k)], top);
    Multiples(bs[k].size, n);
    Multiples(bs[k].size - n, bs[k + 1].size);
    Multiples(bs[k].at, n);
  }

  lemma BackCutFits(bs: seq<Block>, top: int, k: int, n: int)
    requires Shape(bs, top) && 0 <= k < |bs| - 1 && Trimmable(bs[k], n)
    ensures RunEnd(bs, k) < |bs| && Fits(bs, k, RunEnd(bs, k), BackCut(bs, k, n), top)
  {
    BackCutSize(bs, top, k, n);
    BackCutSized(bs, top, k, n);
    if k > 0 { assert LinkedAt(bs, k); }
    if NextFree(bs, k) { assert LinkedAt(bs, k + 2); }
    assert LinkedAt(BackCut(bs, k, n), 1);
  }

  lemma FrontCutListed(m: Memory, head: int, bs: seq<Block>, fl: seq<int>, k: int, n: int)
    requires IsHeap(m, head, bs, fl) && 0 <= k < |bs| - 1 && Trimmable(bs[k], n)
    ensures Listed(Recut(bs, RunStart(bs, k), k + 1, FrontCut(bs, k, n)), ListAfterJoin(bs, fl, k))
  {
    var i, mid := RunStart(bs, k), FrontCut(bs, k, n);
    JoinedElems(m, head, bs, fl, k);
    StartsTwo(Free, mid[0], mid[1]);
    StartsOne(Free, bs[k]);
    StartsOne(Free, bs[i]);
    if PrevFree(bs, k) {
      assert bs[i..k + 1] == [bs[i], bs[k]];
      StartsTwo(Free, bs[i], bs[k]);
    } else {
      assert bs[i..k + 1] == [bs[k]];
    }
    RecutStarts(Free, bs, |m|, i, k + 1, mid);
  }

  lemma BackCutListed(m: Memory, head: int, bs: seq<Block>, fl: seq<int>, k: int, n: int, p: int)
    requires IsHeap(m, head, bs, fl) && 0 <= k < |bs| - 1 && Trimmable(bs[k], n)
    requires NextFree(bs, k) ==> 0 <= p < |fl| && fl[p] == bs[k + 1].at
    ensures Listed(Recut(bs, k, RunEnd(bs, k), BackCut(bs, k, n)),
                   if NextFree(bs, k) then fl[p := bs[k].at + n] else fl + [bs[k].at + n])
  {
    var j, mid := RunEnd(bs, k), BackCut(bs, k, n);
    BackCutFits(bs, |m|, k, n);
    RoomForNode(m, head, bs, fl, k, bs[k].at + n);
    StartsTwo(Free, mid[0], mid[1]);
    StartsOne(Free, bs[k]);
    StartsOne(Free, bs[k + 1]);
    if NextFree(bs, k) {
      assert bs[k..j] == [bs[k], bs[k + 1]];
      StartsTwo(Free, bs[k], bs[k + 1]);
      UpdateElems(fl, p, bs[k].at + n);
      RecutStarts(Free, bs, |m|, k, j, mid);
    } else {
      assert bs[k..j] == [bs[k]];
      AppendElems(fl, bs[k].at + n);
      RecutStarts(Free, bs, |m|, k, j, mid);
    }
  }

  /** What trimming the front of block k relies on. */
  lemma FrontFacts(m: Memory, head: int, bs: seq<Block>, fl: seq<int>, k: int, n: int)
    requires IsHeap(m, head, bs, fl) && 0 <= k < |bs| && Trimmable(bs[k], n)
    ensures k + 1 < |bs| && 0 <= bs[k].at && bs[k].Limit() <= |m| && HasLinks(m, bs[k].at)
    ensures Word(m, bs[k].at) == PrevWord(bs, k) && Word(m, bs[k].at + 4) == -bs[k].size
    ensures Spaced(head, fl + [bs[k].at])
    ensures forall c :: NodeCell(head, fl, c) ==> c < bs[k].at || bs[k].Limit() <= c
    ensures Word(m, bs[k].at) != 0 <==> PrevFree(bs, k)
    ensures PrevFree(bs, k) ==>
      && bs[k - 1].at == bs[k].at - Word(m, bs[k].at) && 0 <= bs[k - 1].at && MIN_BLOCK <= Word(m, bs[k].at)
      && Word(m, bs[k - 1].at + 4) == Word(m, bs[k].at) == bs[k - 1].size
      && Word(m, bs[k - 1].at) == PrevWord(bs, k - 1)
      && forall c :: NodeCell(head, fl, c) ==> !(bs[k - 1].at <= c < bs[k - 1].at + 8)
    ensures FrontCut(bs, k, n)[0].size == PrevWord(bs, k) + n
  {
    HasNext(m, head, bs, fl, k);
    HasPrevious(m, head, bs, fl, k);
    RoomForNode(m, head, bs, fl, k, bs[k].at);
    if PrevFree(bs, k) {
      HasPrevious(m, head, bs, fl, k - 1);
      HeadersOutsideList(m, m, head, bs, fl, k - 1);
      assert Sized(bs[k - 1], |m|);
    }
  }

  /** What trimming the end of block k relies on. */
  lemma BackFacts(m: Memory, head: int, bs: seq<Block>, fl: seq<int>, k: int, n: int)
    requires IsHeap(m, head, bs, fl) && 0 <= k < |bs| && Trimmable(bs[k], n)
    ensures k + 1 < |bs| && 0 <= bs[k].at && bs[k].Limit() + 8 <= |m|
    ensures Word(m, bs[k].at) == PrevWord(bs, k) && Word(m, bs[k].at + 4) == -bs[k].size
    ensures Spaced(head, fl) && Spaced(head, fl + [bs[k].at + n])
    ensures forall c :: NodeCell(head, fl, c) ==> !(bs[k].at <= c < bs[k].Limit() + 8)
    ensures bs[k + 1].at == bs[k].Limit() && Word(m, bs[k + 1].at) == 0
    ensures (Word(m, bs[k + 1].at + 4) > 0 <==> NextFree(bs, k))
    ensures NextFree(bs, k) ==>
      && RunEnd(bs, k) < |bs| && bs[k + 2].at == bs[k + 1].Limit() && bs[k + 2].at + 8 <= |m|
      && MIN_BLOCK <= bs[k + 1].size == Word(m, bs[k + 1].at + 4) == Word(m, bs[k + 2].at)
      && forall c :: NodeCell(head, fl, c) ==> !(bs[k + 2].at <= c < bs[k + 2].at + 8)
    ensures BackCut(bs, k, n)[1].Limit() == bs[RunEnd(bs, k)].at
  {
    HasNext(m, head, bs, fl, k);
    BackCutSize(bs, |m|, k, n);
    HasPrevious(m, head, bs, fl, k);
    FreeListSpaced(m, head, bs, fl);
    RoomForNode(m, head, bs, fl, k, bs[k].at + n);
    HeadersOutsideList(m, m, head, bs, fl, k + 1);
    if NextFree(bs, k) {
      HasNext(m, head, bs, fl, k + 1);
      HeadersOutsideList(m, m, head, bs, fl, k + 2);
    }
  }

  /** m' holds the headers of a front-trimmed block k; the list is as after joining backwards. */
  lemma FrontCutIsHeap(m: Memory, m': Memory, head: int, bs: seq<Block>, fl: seq<int>, k: int, n: int)
    requires IsHeap(m, head, bs, fl) && 0 <= k < |bs| - 1 && Trimmable(bs[k], n) && |m'| == |m|
    requires Ring(m', head, ListAfterJoin(bs, fl, k))
    requires var mid := FrontCut(bs, k, n);
      && Word(m', mid[0].at) == PrevWord(bs, RunStart(bs, k)) && Word(m', mid[0].at + 4) == mid[0].size
      && Word(m', mid[1].at) == mid[0].size && Word(m', mid[1].at + 4) == -mid[1].size
    requires forall c :: !(bs[RunStart(bs, k)].at <= c < bs[k].Limit()) && !NodeCell(head, fl, c)
                         ==> Word(m', c) == Word(m, c)
    ensures IsHeap(m', head, Recut(bs, RunStart(bs, k), k + 1, FrontCut(bs, k, n)), ListAfterJoin(bs, fl, k))
    ensures KeepsLive(m, m', bs, Recut(bs, RunStart(bs, k), k + 1, FrontCut(bs, k, n)), {bs[k].at})
  {
    var i, mid := RunStart(bs, k), FrontCut(bs, k, n);
    HasNext(m, head, bs, fl, k);
    FrontCutFits(bs, |m|, k, n);
    FrontCutListed(m, head, bs, fl, k, n);
    HeadersOutsideList(m, m, head, bs, fl, k + 1);
    forall c | 0 <= c < |m| && !(bs[i].at <= c < bs[k + 1].at + 4) && !InLinks(head, bs, c)
      ensures Word(m', c) == Word(m, c)
    {
      if NodeCell(head, fl, c) { NodeIsLink(m, head, bs, fl, c); }
    }
    assert MidHeaderAt(m', PrevWord(bs, i), mid, 0) && MidHeaderAt(m', PrevWord(bs, i), mid, 1);
    Rebuild(m, m', head, bs, fl, i, k + 1, mid, ListAfterJoin(bs, fl, k), {bs[k].at});
  }

  /** m' holds the headers of a back-trimmed block k. */
  lemma BackCutIsHeap(m: Memory, m': Memory, head: int, bs: seq<Block>, fl: seq<int>, k: int, n: int, fl': seq<int>)
    requires IsHeap(m, head, bs, fl) && 0 <= k < |bs| - 1 && Trimmable(bs[k], n) && |m'| == |m|
    requires RunEnd(bs, k) < |bs|
    requires Ring(m', head, fl') && Listed(Recut(bs, k, RunEnd(bs, k), BackCut(bs, k, n)), fl')
    requires var mid := BackCut(bs, k, n);
      && Word(m', mid[0].at) == PrevWord(bs, k) && Word(m', mid[0].at + 4) == -n
      && Word(m', mid[1].at) == 0 && Word(m', mid[1].at + 4) == mid[1].size == Word(m', bs[RunEnd(bs, k)].at)
    requires forall c :: !(bs[k].at <= c < bs[RunEnd(bs, k)].at + 4) && !NodeCell(head, fl, c)
                         ==> Word(m', c) == Word(m, c)
    ensures IsHeap(m', head, Recut(bs, k, RunEnd(bs, k), BackCut(bs, k, n)), fl')
    ensures KeepsLive(m, m', bs, Recut(bs, k, RunEnd(bs, k), BackCut(bs, k, n)), {bs[k].at})
  {
    var j, mid := RunEnd(bs, k), BackCut(bs, k, n);
    BackCutFits(bs, |m|, k, n);
    forall c | 0 <= c < |m| && !(bs[k].at <= c < bs[j].at + 4) && !InLinks(head, bs, c)
      ensures Word(m', c) == Word(m, c)
    {
      if NodeCell(head, fl, c) { NodeIsLink(m, head, bs, fl, c); }
    }
    assert MidHeaderAt(m', PrevWord(bs, k), mid, 0) && MidHeaderAt(m', PrevWord(bs, k), mid, 1);
    Rebuild(m, m', head, bs, fl, k, j, mid, fl', {bs[k].at});
  }

  // ---------------------------------------------------------------- bpool: a new pool

  /** A pool starts as one free block and its sentinel. */
  function NewPool(buf: int, len: int): seq<Block> {
    [Block(buf, len - BHEAD, Free, buf), Block(buf + len - BHEAD, BHEAD, End, buf)]
  }

  /** The region is aligned, has a size a block can have, and overlaps nothing in use. */
  ghost predicate PoolFits(m: Memory, head: int, bs: seq<Block>, buf: int, len: int) {
    && 0 <= buf && buf % QUANTUM == 0 && len % QUANTUM == 0
    && MIN_BLOCK + BHEAD <= len <= MAX_POOL && buf + len <= |m|
    && (head + 16 <= buf || buf + len <= head)
    && forall i :: 0 <= i < |bs| ==> bs[i].Limit() <= buf || buf + len <= bs[i].at
  }

  lemma PoolFacts(m: Memory, head: int, bs: seq<Block>, fl: seq<int>, buf: int, len: int)
    requires IsHeap(m, head, bs, fl) && PoolFits(m, head, bs, buf, len)
    ensures Spaced(head, fl + [buf]) && HasLinks(m, buf) && buf !in Elems(fl)
    ensures forall c :: NodeCell(head, fl, c) ==> !(buf <= c < buf + len)
  {
    FreeListSpaced(m, head, bs, fl);
    var gl := fl + [buf];
    forall p | 0 <= p < |fl| ensures Gap(fl[p], buf) && (fl[p] + 16 <= buf || buf + len <= fl[p]) {
      var r := FreeIndex(m, head, bs, fl, p);
      assert Sized(bs[r], |m|);
    }
    forall p, q | 0 <= p < q < |gl| ensures Gap(gl[p], gl[q]) {
      if q < |fl| { assert Gap(fl[p], fl[q]); }
    }
  }

  lemma PoolShape(m: Memory, head: int, bs: seq<Block>, buf: int, len: int)
    requires Shape(bs, |m|) && PoolFits(m, head, bs, buf, len)
    ensures Shape(bs + NewPool(buf, len), |m|)
  {
    var cs := bs + NewPool(buf, len);
    assert forall i :: 0 <= i < |bs| ==> cs[i] == bs[i];
    assert cs[|bs|] == NewPool(buf, len)[0] && cs[|bs| + 1] == NewPool(buf, len)[1];
    forall i | 0 < i < |cs| ensures LinkedAt(cs, i) {
      if i < |bs| { assert LinkedAt(bs, i); }
    }
    forall i, j | 0 <= i < j < |cs| ensures ApartAt(cs, i, j) {
      if j < |bs| { assert ApartAt(bs, i, j); }
    }
  }

  lemma PoolIsHeap(m: Memory, m': Memory, head: int, bs: seq<Block>, fl: seq<int>, buf: int, len: int)
    requires IsHeap(m, head, bs, fl) && PoolFits(m, head, bs, buf, len)
    requires |m'| == |m| && Ring(m', head, fl + [buf])
    requires Word(m', buf) == 0 && Word(m', buf + 4) == len - BHEAD == Word(m', buf + len - BHEAD)
    requires Word(m', buf + len - BHEAD + 4) == ESENT
    requires forall c :: !(buf <= c < buf + len) && !NodeCell(head, fl, c) ==> Word(m', c) == Word(m, c)
    ensures IsHeap(m', head, bs + NewPool(buf, len), fl + [buf])
    ensures KeepsLive(m, m', bs, bs + NewPool(buf, len), {})
  {
    var np := NewPool(buf, len);
    var cs := bs + np;
    PoolShape(m, head, bs, buf, len);
    PoolFacts(m, head, bs, fl, buf, len);
    assert forall i :: 0 <= i < |bs| ==> cs[i] == bs[i];
    assert cs[|bs|] == np[0] && cs[|bs| + 1] == np[1];
    forall i | 0 <= i < |cs| ensures HeaderAt(m', cs, i) {
      if i < |bs| {
        KeptByPool(m, m', head, bs, fl, buf, len, i);
        assert PrevWord(cs, i) == PrevWord(bs, i);
      }
    }
    AppendElems(fl, buf);
    StartsSplit(Free, bs, np);
    StartsTwo(Free, np[0], np[1]);
    forall q | 0 <= q < |bs| && bs[q].kind.Used?
      ensures bs[q] in cs && SameSpan(m, m', bs[q].at + BHEAD, bs[q].Limit())
    {
      KeptByPool(m, m', head, bs, fl, buf, len, q);
      assert cs[q] == bs[q];
    }
  }

  lemma KeptByPool(m: Memory, m': Memory, head: int, bs: seq<Block>, fl: seq<int>, buf: int, len: int, q: int)
    requires IsHeap(m, head, bs, fl) && PoolFits(m, head, bs, buf, len) && 0 <= q < |bs|
    requires forall c :: !(buf <= c < buf + len) && !NodeCell(head, fl, c) ==> Word(m', c) == Word(m, c)
    ensures HeaderAt(m', bs, q)
    ensures bs[q].kind.Used? ==> SameSpan(m, m', bs[q].at + BHEAD, bs[q].Limit())
  {
    HeadersOutsideList(m, m, head, bs, fl, q);
    assert Sized(bs[q], |m|) && HeaderAt(m, bs, q);
    if bs[q].kind.Used? {
      forall c | bs[q].at + BHEAD <= c < bs[q].Limit() ensures !NodeCell(head, fl, c) {
        IsNotLink(m, head, bs, fl, q, c);
        if NodeCell(head, fl, c) { NodeIsLink(m, head, bs, fl, c); }
      }
    }
  }

  // ---------------------------------------------------------------- totals

  lemma BytesSmall(b: Block, c: Block, kind: Kind)
    ensures Bytes([b], kind) == if b.kind == kind then b.size else 0
    ensures Bytes([b, c], kind) == Bytes([b], kind) + Bytes([c], kind)
  {
    assert [b, c] == [b] + [c];
    BytesSplit([b], [c], kind);
  }

  lemma CutTotals(bs: seq<Block>, k: int, n: int)
    requires 0 <= k < |bs| && bs[k].kind.Free?
    ensures Bytes(Recut(bs, k, k + 1, TailCut(bs[k], n)), Used) == Bytes(bs, Used) + n
  {
    var mid := TailCut(bs[k], n);
    BytesRecut(bs, k, k + 1, mid, Used);
    assert bs[k..k + 1] == [bs[k]];
    BytesSmall(bs[k], bs[k], Used);
    BytesSmall(mid[0], mid[1], Used);
    BytesSmall(mid[1], mid[1], Used);
  }

  lemma TakeTotals(bs: seq<Block>, k: int)
    requires 0 <= k < |bs| && bs[k].kind.Free?
    ensures Bytes(Recut(bs, k, k + 1, [bs[k].(kind := Used)]), Used) == Bytes(bs, Used) + bs[k].size
  {
    BytesRecut(bs, k, k + 1, [bs[k].(kind := Used)], Used);
    assert bs[k..k + 1] == [bs[k]];
    BytesSmall(bs[k], bs[k], Used);
    BytesSmall(bs[k].(kind := Used), bs[k], Used);
  }

  /** The run that a release joins has one allocated block. */
  lemma RunBytes(bs: seq<Block>, k: int)
    requires 0 <= k < |bs| && bs[k].kind.Used?
    ensures Bytes(bs[RunStart(bs, k)..RunEnd(bs, k)], Used) == bs[k].size
  {
    var i, j := RunStart(bs, k), RunEnd(bs, k);
    BytesSmall(bs[k], bs[k], Used);
    var back := bs[k..j];
    assert Bytes(back, Used) == bs[k].size by {
      if NextFree(bs, k) {
        assert back == [bs[k], bs[k + 1]];
        BytesSmall(bs[k], bs[k + 1], Used);
        BytesSmall(bs[k + 1], bs[k + 1], Used);
      } else {
        assert back == [bs[k]];
      }
    }
    if PrevFree(bs, k) {
      assert bs[i..j] == [bs[i]] + back;
      BytesSplit([bs[i]], back, Used);
      BytesSmall(bs[i], bs[i], Used);
    }
  }

  lemma ReleaseTotals(bs: seq<Block>, k: int)
    requires 0 <= k < |bs| && bs[k].kind.Used?
    ensures Bytes(Released(bs, k), Used) == Bytes(bs, Used) - bs[k].size
  {
    RunBytes(bs, k);
    BytesRecut(bs, RunStart(bs, k), RunEnd(bs, k), [Joined(bs, k)], Used);
    BytesSmall(Joined(bs, k), Joined(bs, k), Used);
  }

  lemma FrontCutTotals(bs: seq<Block>, k: int, n: int)
    requires 0 <= k < |bs| && bs[k].kind.Used?
    ensures Bytes(Recut(bs, RunStart(bs, k), k + 1, FrontCut(bs, k, n)), Used) == Bytes(bs, Used) - n
  {
    var i, mid := RunStart(bs, k), FrontCut(bs, k, n);
    BytesRecut(bs, i, k + 1, mid, Used);
    BytesSmall(mid[0], mid[1], Used);
    BytesSmall(mid[1], mid[1], Used);
    BytesSmall(bs[k], bs[k], Used);
    if PrevFree(bs, k) {
      assert bs[i..k + 1] == [bs[i], bs[k]];
      BytesSmall(bs[i], bs[k], Used);
    } else {
      assert bs[i..k + 1] == [bs[k]];
    }
  }

  lemma BackCutTotals(bs: seq<Block>, k: int, n: int)
    requires 0 <= k < |bs| && bs[k].kind.Used?
    ensures Bytes(Recut(bs, k, RunEnd(bs, k), BackCut(bs, k, n)), Used) == Bytes(bs, Used) - (bs[k].size - n)
  {
    var j, mid := RunEnd(bs, k), BackCut(bs, k, n);
    BytesRecut(bs, k, j, mid, Used);
    BytesSmall(mid[0], mid[1], Used);
    BytesSmall(mid[1], mid[1], Used);
    BytesSmall(bs[k], bs[k], Used);
    if NextFree(bs, k) {
      assert bs[k..j] == [bs[k], bs[k + 1]];
      BytesSmall(bs[k], bs[k + 1], Used);
      BytesSmall(bs[k + 1], bs[k + 1], Used);
    } else {
      assert bs[k..j] == [bs[k]];
    }
  }

  lemma PoolTotals(bs: seq<Block>, buf: int, len: int)
    ensures Bytes(bs + NewPool(buf, len), Used) == Bytes(bs, Used)
  {
    var np := NewPool(buf, len);
    BytesSplit(bs, np, Used);
    BytesSmall(np[0], np[1], Used);
    BytesSmall(np[1], np[1], Used);
  }
}
