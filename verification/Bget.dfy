/**
 The BGET allocator (bget.c) over the memory of HeapLayout: get, release and pool addition work by
 loads and stores on block headers and free-list links, as the C code does.  The ghost fields give
 the block sequence and the free list the memory encodes.
 */
module Bget {
  import opened Arith
  import opened HeapLayout
  import opened HeapSteps

  const MAX_REQUEST := 0x7fff_fff0     // the largest request whose block size is a bufsize

  /** buf is the payload address of an allocated block. */
  ghost predicate IsLive(bs: seq<Block>, buf: int) {
    buf - BHEAD in Starts(Used, bs)
  }

  ghost function IndexOf(bs: seq<Block>, buf: int): (k: int)
    requires IsLive(bs, buf)
    ensures 0 <= k < |bs| && bs[k].kind.Used? && bs[k].at + BHEAD == buf
  {
    var k :| 0 <= k < |bs| && bs[k].kind == Used && bs[k].at == buf - BHEAD;
    k
  }

  /** The block size that serves a request: at least a quantum, rounded up, plus the header. */
  function Need(requested: int): (n: int)
    requires 0 <= requested
    ensures n % QUANTUM == 0 && MIN_BLOCK <= n && requested + BHEAD <= n
    ensures requested >= QUANTUM ==> n < requested + BHEAD + QUANTUM
  {
    var size := if requested < QUANTUM then QUANTUM else requested;
    (size + (QUANTUM - 1)) / QUANTUM * QUANTUM + BHEAD
  }

  /** And it is the least size of a block that can hold the request and the header. */
  lemma NeedIsLeast(requested: int, n: int)
    requires 0 <= requested && n % QUANTUM == 0 && MIN_BLOCK <= n && requested + BHEAD <= n
    ensures Need(requested) <= n
  {
  }

  /** The block of a buffer holds at most so much more than was asked for as is too little to be cut off. */
  ghost predicate IsSnug(cs: seq<Block>, buf: int, requested: int) {
    forall i :: 0 <= i < |cs| && cs[i].at + BHEAD == buf ==> cs[i].size <= BHEAD + Ample(requested)
  }

  /** The most that a buffer for a request has room for. */
  function Ample(requested: int): int { Max(requested, QUANTUM) + (QUANTUM - 1) + MIN_BLOCK }

  /** What a get of n bytes makes of free block k. */
  function TakeFrom(b: Block, n: int): seq<Block> {
    if b.size - n > MIN_BLOCK then TailCut(b, n) else [b.(kind := Used)]
  }

  /** A free block is given whole when at most sixteen bytes would be left over; otherwise its last n bytes are given
      and the rest stays free in front of them. */
  lemma TakenIs(b: Block, n: int)
    ensures
      var cs := TakeFrom(b, n);
      var last := cs[|cs| - 1];
      && last.kind.Used? && last.Limit() == b.Limit() && last.pool == b.pool
      && (b.size <= n + 16 ==> cs == [last] && last.size == b.size && last.at == b.at)
      && (b.size > n + 16 ==> |cs| == 2 && last.size == n && cs[0] == Block(b.at, b.size - n, Free, b.pool))
  {
  }

  /** Block k, the p-th of the free list, is the first of the list with room for n bytes. */
  ghost predicate FirstFit(bs: seq<Block>, fl: seq<int>, n: int, p: int, k: int) {
    && 0 <= p < |fl| && 0 <= k < |bs| && bs[k].kind.Free? && bs[k].at == fl[p] && n <= bs[k].size
    && forall q, i :: 0 <= q < p && 0 <= i < |bs| && bs[i].at == fl[q] && bs[i].kind.Free? ==> bs[i].size < n
  }

  /** buf is a live buffer with room for the request, and no live buffer started there before. */
  ghost predicate IsFreshBuffer(bs: seq<Block>, cs: seq<Block>, buf: int, requested: int) {
    FreshBuffer(bs, cs, buf, requested) == true
  }

  ghost predicate FreshBuffer(bs: seq<Block>, cs: seq<Block>, buf: int, requested: int) {
    && !IsLive(bs, buf)
    && IsLive(cs, buf)
    && BHEAD <= buf && buf % QUANTUM == 0
    && forall i :: 0 <= i < |cs| && cs[i].at + BHEAD == buf ==> requested + BHEAD <= cs[i].size
  }

  class Heap {
    var mem: Memory
    const head: int                    // address of the static list head `freelist`
    var totalloc: int
    ghost var blocks: seq<Block>
    ghost var free: seq<int>

    ghost predicate Valid()
      reads this
    {
      IsHeap(mem, head, blocks, free) && totalloc == Bytes(blocks, Used)
    }

    constructor (size: nat, freelist: nat)
      requires freelist + 16 <= size
      ensures Valid() && blocks == [] && free == [] && |mem| == size && head == freelist
    {
      head := freelist;
      totalloc := 0;
      mem := seq(size, a => if a == freelist + 8 || a == freelist + 12 then freelist else 0);
      blocks := [];
      free := [];
      new;
      assert RingLink(mem, head, free, 0);
    }

    /** A word store overwrites four cells. */
    method Store(a: int, v: int)
      requires 0 <= a && a + 4 <= |mem|
      modifies this`mem
      ensures |mem| == |old(mem)| && Word(mem, a) == v
      ensures forall c :: !(a <= c < a + 4) ==> Word(mem, c) == Word(old(mem), c)
    {
      mem := mem[a := v][a + 1 := 0][a + 2 := 0][a + 3 := 0];
    }

    /** Append b to the free list. */
    method Link(b: int)
      requires Ring(mem, head, free) && Spaced(head, free + [b]) && HasLinks(mem, b)
      modifies this`mem, this`free
      ensures |mem| == |old(mem)| && free == old(free) + [b] && Ring(mem, head, free)
      ensures forall c :: !NodeCell(head, free, c) ==> Word(mem, c) == Word(old(mem), c)
    {
      ghost var m0, fl := mem, free;
      ghost var gl := fl + [b];
      assert RingLink(mem, head, fl, |fl|);
      var last := Word(mem, head + 12);
      assert gl[|fl|] == b && Gap(head, b);
      assert Gap(last, b) by {
        if |fl| > 0 { assert gl[|fl| - 1] == last && Gap(gl[|fl| - 1], gl[|fl|]); }
      }
      Store(b + 8, head);
      Store(b + 12, last);
      Store(head + 12, b);
      Store(Word(mem, b + 12) + 8, b);
      NewNodeIsFresh(head, fl, b);
      NodeWords(head, gl, 0);
      NodeWords(head, gl, |fl|);
      NodeWords(head, gl, |gl|);
      assert RingAt(head, gl, |fl|) == last && RingAt(head, gl, |gl|) == b;
      RingAppends(m0, mem, head, fl, b);
      free := gl;
    }

    /** Take b, the p-th node, off the free list. */
    method Unlink(b: int, ghost p: int)
      requires Ring(mem, head, free) && Spaced(head, free) && 0 <= p < |free| && free[p] == b
      modifies this`mem, this`free
      ensures |mem| == |old(mem)| && free == Without(old(free), p) && Ring(mem, head, free)
      ensures forall c :: !NodeCell(head, old(free), c) ==> Word(mem, c) == Word(old(mem), c)
    {
      ghost var m0, fl := mem, free;
      assert RingLink(mem, head, fl, p) && RingLink(mem, head, fl, p + 1);
      assert RingAt(head, fl, p + 1) == b;
      NodesGap(head, fl, p, p + 1);
      NodeWords(head, fl, p);
      NodeWords(head, fl, p + 2);
      Store(Word(mem, b + 12) + 8, Word(mem, b + 8));
      Store(Word(mem, b + 8) + 12, Word(mem, b + 12));
      RingRemoves(m0, mem, head, fl, p);
      free := Without(fl, p);
    }

    /** The split branch of bget: hand out the tail of free block k. */
    method TakeTail(b: int, size: int, ghost k: int) returns (buf: int)
      requires Valid() && 0 <= k < |blocks| && blocks[k].at == b && Cuttable(blocks[k], size)
      modifies this
      ensures Valid() && free == old(free) && |mem| == |old(mem)|
      ensures blocks == Recut(old(blocks), k, k + 1, TailCut(old(blocks)[k], size))
      ensures buf == old(blocks)[k].Limit() - size + BHEAD
      ensures KeepsLive(old(mem), mem, old(blocks), blocks, {})
    {
      ghost var m0, bs := mem, blocks;
      HasNext(mem, head, blocks, free, k);
      var bsize := Word(mem, b + 4);
      var ba := b + (bsize - size);
      var bn := ba + size;
      Store(b + 4, bsize - size);
      Store(ba, Word(mem, b + 4));
      Store(ba + 4, -size);
      Store(bn, 0);
      totalloc := totalloc + size;
      SplitIsHeap(m0, mem, head, bs, free, k, size);
      blocks := Recut(bs, k, k + 1, TailCut(bs[k], size));
      CutTotals(bs, k, size);
      buf := ba + BHEAD;
    }

    /** The other branch of bget: hand out the whole of free block k, the p-th of the list. */
    method TakeWhole(b: int, ghost k: int, ghost p: int) returns (buf: int)
      requires Valid() && 0 <= k < |blocks| && blocks[k].at == b && blocks[k].kind.Free?
      requires 0 <= p < |free| && free[p] == b
      modifies this
      ensures Valid() && free == Without(old(free), p) && |mem| == |old(mem)|
      ensures blocks == Recut(old(blocks), k, k + 1, [old(blocks)[k].(kind := Used)])
      ensures buf == b + BHEAD
      ensures KeepsLive(old(mem), mem, old(blocks), blocks, {})
    {
      ghost var m0, bs, fl := mem, blocks, free;
      HasNext(mem, head, blocks, free, k);
      FreeListSpaced(mem, head, blocks, free);
      var ba := b + Word(mem, b + 4);
      Unlink(b, p);
      ghost var m1 := mem;
      HeadersOutsideList(m0, m1, head, bs, fl, k);
      HeadersOutsideList(m0, m1, head, bs, fl, k + 1);
      totalloc := totalloc + Word(mem, b + 4);
      Store(b + 4, -Word(mem, b + 4));
      Store(ba, 0);
      TakenIsHeap(m0, m1, mem, head, bs, fl, k, p);
      blocks := Recut(bs, k, k + 1, [bs[k].(kind := Used)]);
      TakeTotals(bs, k);
      buf := b + BHEAD;
    }

    /** Scan the free list for the first block with room for size bytes; the head when there is none. */
    method Search(size: int) returns (b: int, ghost k: int, ghost p: int)
      requires Valid()
      ensures b != head ==> FirstFit(blocks, free, size, p, k) && b == blocks[k].at
      ensures b == head ==> forall i :: 0 <= i < |blocks| && blocks[i].kind.Free? ==> blocks[i].size < size
    {
      k, p := 0, 0;
      ListEnds(mem, head, blocks, free, 0);
      b := Word(mem, head + 8);
      while b != head
        invariant 0 <= p <= |free| && b == RingAt(head, free, p + 1)
        invariant forall q, i :: 0 <= q < p && 0 <= i < |blocks| && blocks[i].at == free[q] && blocks[i].kind.Free?
                                 ==> blocks[i].size < size
        decreases |free| - p
      {
        k := ListNode(mem, head, blocks, free, p);
        if Word(mem, b + 4) >= size { return; }
        forall i | 0 <= i < |blocks| && blocks[i].at == free[p] && blocks[i].kind.Free? ensures blocks[i].size < size {
          SameBlock(blocks, |mem|, i, k);
        }
        b := Word(mem, b + 8);
        p := p + 1;
      }
      ListEnds(mem, head, blocks, free, p);
      forall i | 0 <= i < |blocks| && blocks[i].kind.Free? ensures blocks[i].size < size {
        var q := PositionOf(mem, head, blocks, free, i);
      }
    }

    /** Serve a request from free block k, splitting it when the rest is worth keeping. */
    method Take(b: int, size: int, ghost k: int, ghost p: int) returns (buf: int)
      requires Valid() && 0 <= p < |free| && 0 <= k < |blocks|
      requires blocks[k].kind.Free? && blocks[k].at == b == free[p]
      requires size % QUANTUM == 0 && MIN_BLOCK <= size <= blocks[k].size
      modifies this
      ensures Valid() && |mem| == |old(mem)|
      ensures blocks == Recut(old(blocks), k, k + 1, TakeFrom(old(blocks)[k], size))
      ensures free == if old(blocks)[k].size - size > MIN_BLOCK then old(free) else Without(old(free), p)
      ensures buf == (if old(blocks)[k].size - size > MIN_BLOCK then old(blocks)[k].Limit() - size else b) + BHEAD
      ensures KeepsLive(old(mem), mem, old(blocks), blocks, {})
    {
      HasNext(mem, head, blocks, free, k);
      if Word(mem, b + 4) - size > MIN_BLOCK {
        buf := TakeTail(b, size, k);
      } else {
        buf := TakeWhole(b, k, p);
      }
    }

    /** Allocate a buffer; 0 when no free block is big enough. */
    method Bget(requested: int) returns (buf: int, ghost k: int, ghost p: int)
      requires Valid() && 0 < requested <= MAX_REQUEST
      modifies this
      ensures Valid() && |mem| == |old(mem)|
      ensures buf == 0 ==>
        && mem == old(mem) && blocks == old(blocks) && free == old(free) && totalloc == old(totalloc)
        && forall i :: 0 <= i < |blocks| && blocks[i].kind.Free? ==> blocks[i].size < requested + BHEAD
      ensures buf != 0 ==>
        && FirstFit(old(blocks), old(free), Need(requested), p, k)
        && blocks == Recut(old(blocks), k, k + 1, TakeFrom(old(blocks)[k], Need(requested)))
        && free == (if old(blocks)[k].size - Need(requested) > MIN_BLOCK then old(free) else Without(old(free), p))
        && buf == BHEAD + (if old(blocks)[k].size - Need(requested) > MIN_BLOCK
                           then old(blocks)[k].Limit() - Need(requested) else old(blocks)[k].at)
        && IsFreshBuffer(old(blocks), blocks, buf, requested) && IsSnug(blocks, buf, requested)
      ensures KeepsLive(old(mem), mem, old(blocks), blocks, {})
    {
      var size := Need(requested);
      var b;
      b, k, p := Search(size);
      if b == head {
        KeepsLiveSame(mem, blocks);
        NoneCanHold(mem, head, blocks, free, requested);
        buf := 0;
      } else {
        TakenIsFresh(mem, head, blocks, free, k, size, requested);
        buf := Take(b, size, k, p);
      }
    }

    /** First half of brel: add the block to its free predecessor, or to the free list. */
    method JoinPrevious(buf: int, ghost k: int) returns (b: int)
      requires IsHeap(mem, head, blocks, free)
      requires 0 <= k < |blocks| && blocks[k].kind.Used? && blocks[k].at + BHEAD == buf
      modifies this`mem, this`free
      ensures b == blocks[RunStart(blocks, k)].at
      ensures free == if PrevFree(blocks, k) then old(free) else old(free) + [b]
      ensures Ring(mem, head, free) && Spaced(head, free)
      ensures |mem| == |old(mem)| && Word(mem, b + 4) == blocks[k].Limit() - b
      ensures forall c :: !(b + 4 <= c < b + 8) && !NodeCell(head, free, c) ==> Word(mem, c) == Word(old(mem), c)
    {
      ghost var m0, fl := mem, free;
      b := buf - BHEAD;
      HasPrevious(mem, head, blocks, free, k);
      assert Sized(blocks[k], |mem|);
      if Word(mem, b) != 0 {
        HasPrevious(mem, head, blocks, free, k - 1);
        FreeListSpaced(mem, head, blocks, free);
        HeadersOutsideList(m0, m0, head, blocks, fl, k - 1);
        var size := Word(mem, b + 4);
        b := b - Word(mem, b);
        Store(b + 4, Word(mem, b + 4) - size);
        RingKeptOutside(m0, mem, head, fl);
      } else {
        RoomForNode(mem, head, blocks, free, k, b);
        Link(b);
        ghost var m1 := mem;
        OwnHeader(m0, head, blocks, fl, k);
        Store(b + 4, -Word(mem, b + 4));
        RingKeptOutside(m1, mem, head, free);
      }
    }

    /** Second half of brel: swallow a free successor, then set the next block's back link. */
    method JoinNext(b: int, ghost k: int, ghost m0: Memory, ghost fl: seq<int>)
      requires IsHeap(m0, head, blocks, fl) && 0 <= k < |blocks| - 1 && blocks[k].kind.Used?
      requires b == blocks[RunStart(blocks, k)].at && free == ListAfterJoin(blocks, fl, k)
      requires Ring(mem, head, free) && Spaced(head, free)
      requires |mem| == |m0| && Word(mem, b + 4) == blocks[k].Limit() - b
      requires forall c :: !(b + 4 <= c < b + 8) && !NodeCell(head, free, c) ==> Word(mem, c) == Word(m0, c)
      modifies this`mem, this`free
      ensures IsHeap(mem, head, Released(blocks, k), free) && |mem| == |old(mem)|
      ensures KeepsLive(m0, mem, blocks, Released(blocks, k), {blocks[k].at})
    {
      ghost var bs, gl := blocks, free;
      JoinFacts(m0, head, bs, fl, k);
      JoinedElems(m0, head, bs, fl, k);
      JoinedSize(bs, |m0|, k);
      NextHeader(m0, mem, head, bs, fl, k);
      var bn := b + Word(mem, b + 4);
      if Word(mem, bn + 4) > 0 {
        SwallowNext(b, bn, k, m0, fl);
      } else {
        ghost var m1 := mem;
        Store(bn, Word(mem, b + 4));
        RingKeptOutside(m1, mem, head, gl);
        ReleaseListed(bs, |m0|, k, fl, gl);
        ReleasedIsHeap(m0, mem, head, bs, fl, k, gl);
      }
    }

    /** The case of a free successor bn. */
    method SwallowNext(b: int, bn: int, ghost k: int, ghost m0: Memory, ghost fl: seq<int>)
      requires IsHeap(m0, head, blocks, fl) && 0 <= k < |blocks| - 1 && blocks[k].kind.Used? && NextFree(blocks, k)
      requires b == blocks[RunStart(blocks, k)].at && bn == blocks[k + 1].at && free == ListAfterJoin(blocks, fl, k)
      requires Ring(mem, head, free) && Spaced(head, free)
      requires |mem| == |m0| && Word(mem, b + 4) == blocks[k].Limit() - b && Word(mem, bn + 4) == blocks[k + 1].size
      requires forall c :: !(b + 4 <= c < b + 8) && !NodeCell(head, free, c) ==> Word(mem, c) == Word(m0, c)
      modifies this`mem, this`free
      ensures IsHeap(mem, head, Released(blocks, k), free) && |mem| == |old(mem)|
      ensures KeepsLive(m0, mem, blocks, Released(blocks, k), {blocks[k].at})
    {
      ghost var bs, gl := blocks, free;
      JoinFacts(m0, head, bs, fl, k);
      JoinedElems(m0, head, bs, fl, k);
      JoinedSize(bs, |m0|, k);
      ghost var p := PositionOf(m0, head, bs, fl, k + 1);
      JoinHeaders(m0, head, bs, fl, k);
      Unlink(bn, p);
      ghost var m1 := mem;
      Store(b + 4, Word(mem, b + 4) + Word(mem, bn + 4));
      Store(b + Word(mem, b + 4), Word(mem, b + 4));
      WithoutElems(gl, p);
      SwallowedIsHeap(m0, m1, mem, head, bs, fl, k, p);
    }

    /** Release a buffer. */
    method Brel(buf: int)
      requires Valid() && IsLive(blocks, buf)
      modifies this
      ensures Valid() && |mem| == |old(mem)|
      ensures blocks == Released(old(blocks), IndexOf(old(blocks), buf))
      ensures KeepsLive(old(mem), mem, old(blocks), blocks, {buf - BHEAD})
    {
      ghost var m0, fl := mem, free;
      ghost var k := IndexOf(blocks, buf);
      HasNext(mem, head, blocks, free, k);
      ReleaseTotals(blocks, k);
      ghost var after := Released(blocks, k);
      totalloc := totalloc + Word(mem, buf - BHEAD + 4);
      assert totalloc == Bytes(after, Used);
      var b := JoinPrevious(buf, k);
      JoinNext(b, k, m0, fl);
      blocks := after;
    }

    /** Write a free block's header, the next block's back link, and list the block. */
    method CreateFreeBlock(bf: int, size: int, bn: int)
      requires Ring(mem, head, free) && Spaced(head, free + [bf]) && HasLinks(mem, bf)
      requires bf + MIN_BLOCK <= bn && bn + 4 <= |mem|
      requires forall c :: NodeCell(head, free, c) ==> !(bf <= c < bf + 8) && !(bn <= c < bn + 4)
      modifies this`mem, this`free
      ensures |mem| == |old(mem)| && free == old(free) + [bf] && Ring(mem, head, free)
      ensures Word(mem, bf) == 0 && Word(mem, bf + 4) == size && Word(mem, bn) == size
      ensures forall c :: !(bf <= c < bf + 16) && !(bn <= c < bn + 4) && !NodeCell(head, old(free), c)
                          ==> Word(mem, c) == Word(old(mem), c)
    {
      ghost var m0, fl := mem, free;
      Store(bf + 4, size);
      Store(bf, 0);
      Store(bn, size);
      RingKeptOutside(m0, mem, head, fl);
      NodeCellAppended(head, fl, bf);
      Link(bf);
    }

    /** The front goes to the free predecessor. */
    method FrontToPrevious(bf: int, b: int, size: int)
      requires Ring(mem, head, free)
      requires var bfp := bf - Word(mem, bf); 0 <= bfp && bfp + MIN_BLOCK <= bf && bf + MIN_BLOCK <= b && b + 8 <= |mem|
      requires var bfp := bf - Word(mem, bf);
        forall c :: NodeCell(head, free, c) ==> !(bfp <= c < bfp + 8) && !(b <= c < b + 8)
      modifies this`mem
      ensures |mem| == |old(mem)| && Ring(mem, head, free)
      ensures var bfp := bf - old(Word(mem, bf));
        && Word(mem, bfp + 4) == old(Word(mem, bfp + 4)) + size == Word(mem, b)
        && Word(mem, b + 4) == old(Word(mem, bf + 4)) + size
        && forall c :: !(bfp + 4 <= c < bfp + 8) && !(b <= c < b + 8) ==> Word(mem, c) == Word(old(mem), c)
    {
      ghost var m0 := mem;
      var bfp := bf - Word(mem, bf);
      var origSize := -Word(mem, bf + 4);
      Store(bfp + 4, Word(mem, bfp + 4) + size);
      Store(b, Word(mem, bfp + 4));
      Store(b + 4, -(origSize - size));
      RingKeptOutside(m0, mem, head, free);
    }

    /** The front becomes a free block of its own. */
    method FrontAlone(bf: int, b: int, size: int)
      requires Ring(mem, head, free) && Spaced(head, free + [bf]) && HasLinks(mem, bf)
      requires bf + MIN_BLOCK <= b && b + 8 <= |mem|
      requires forall c :: NodeCell(head, free, c) ==> !(bf <= c < bf + 8) && !(b <= c < b + 8)
      modifies this`mem, this`free
      ensures |mem| == |old(mem)| && Ring(mem, head, free) && free == old(free) + [bf]
      ensures Word(mem, bf) == 0 && Word(mem, bf + 4) == size == Word(mem, b)
      ensures Word(mem, b + 4) == old(Word(mem, bf + 4)) + size
      ensures forall c :: !(bf <= c < bf + 16) && !(b <= c < b + 8) && !NodeCell(head, old(free), c)
                          ==> Word(mem, c) == Word(old(mem), c)
    {
      ghost var m0 := mem;
      var origSize := -Word(mem, bf + 4);
      Store(b + 4, -(origSize - size));
      RingKeptOutside(m0, mem, head, free);
      CreateFreeBlock(bf, size, b);
    }

    /** Cut size bytes off the front of block k and free them. */
    method CutFront(bf: int, size: int, ghost k: int)
      requires IsHeap(mem, head, blocks, free) && 0 <= k < |blocks| && blocks[k].at == bf && Trimmable(blocks[k], size)
      modifies this`mem, this`free
      ensures |mem| == |old(mem)|
      ensures IsHeap(mem, head, Recut(blocks, RunStart(blocks, k), k + 1, FrontCut(blocks, k, size)), free)
      ensures KeepsLive(old(mem), mem, blocks, Recut(blocks, RunStart(blocks, k), k + 1, FrontCut(blocks, k, size)),
        {bf})
    {
      ghost var m0, bs, fl := mem, blocks, free;
      FrontFacts(mem, head, blocks, free, k, size);
      if Word(mem, bf) != 0 {
        FrontToPrevious(bf, bf + size, size);
      } else {
        FrontAlone(bf, bf + size, size);
      }
      FrontCutIsHeap(m0, mem, head, bs, fl, k, size);
    }

    /** Give back the front of a buffer: newBuf becomes its payload address. */
    method BrelBefore(origBuf: int, newBuf: int, ghost k: int)
      requires Valid() && 0 <= k < |blocks| && blocks[k].at + BHEAD == origBuf
      requires Trimmable(blocks[k], newBuf - origBuf)
      modifies this
      ensures Valid() && |mem| == |old(mem)|
      ensures blocks == Recut(old(blocks), RunStart(old(blocks), k), k + 1, FrontCut(old(blocks), k, newBuf - origBuf))
      ensures KeepsLive(old(mem), mem, old(blocks), blocks, {origBuf - BHEAD})
    {
      var size := newBuf - origBuf;
      CutFront(origBuf - BHEAD, size, k);
      FrontCutTotals(blocks, k, size);
      totalloc := totalloc - size;
      blocks := Recut(blocks, RunStart(blocks, k), k + 1, FrontCut(blocks, k, size));
    }

    /** The tail goes to the free successor, whose place in the list the new block takes. */
    method BackToNext(b: int, size: int, ghost p: int)
      requires Ring(mem, head, free) && Spaced(head, free) && 0 <= p < |free|
      requires var bn := b - Word(mem, b + 4); var bnn := bn + Word(mem, bn + 4);
        && 0 <= b && b + MIN_BLOCK <= b + size && b + size + MIN_BLOCK <= bn && bn + MIN_BLOCK <= bnn
          && bnn + 4 <= |mem|
        && free[p] == bn
        && forall c :: NodeCell(head, free, c) ==> !(b <= c < bn + 8) && !(bnn <= c < bnn + 4)
      modifies this`mem, this`free
      ensures |mem| == |old(mem)| && free == old(free)[p := b + size] && Ring(mem, head, free)
      ensures var bn := b - old(Word(mem, b + 4)); var bnn := bn + old(Word(mem, bn + 4));
        && Word(mem, b) == old(Word(mem, b)) && Word(mem, b + 4) == -size && Word(mem, b + size) == 0
        && Word(mem, b + size + 4) == bnn - b - size
        && Word(mem, bnn) == old(Word(mem, bnn)) + (bn - b - size)
        && forall c :: !(b <= c < bn) && !(bnn <= c < bnn + 4) && !NodeCell(head, old(free), c)
                       ==> Word(mem, c) == Word(old(mem), c)
    {
      ghost var m0, fl := mem, free;
      var freeSize := -Word(mem, b + 4) - size;
      var bn := b - Word(mem, b + 4);
      var nbf := b + size;
      var bnn := bn + Word(mem, bn + 4);
      Store(b + 4, -size);
      Store(nbf, 0);
      Store(nbf + 4, Word(mem, bn + 4) + freeSize);
      Store(bnn, Word(mem, bnn) + freeSize);
      RingKeptOutside(m0, mem, head, fl);
      TakeOver(nbf, bn, p);
    }

    /** The tail becomes a free block of its own. */
    method BackAlone(b: int, size: int)
      requires Ring(mem, head, free) && Spaced(head, free + [b + size])
      requires var bn := b - Word(mem, b + 4);
        && 0 <= b && b + MIN_BLOCK <= b + size && b + size + MIN_BLOCK <= bn && bn + 8 <= |mem|
        && forall c :: NodeCell(head, free, c) ==> !(b <= c < bn + 8)
      modifies this`mem, this`free
      ensures |mem| == |old(mem)| && free == old(free) + [b + size] && Ring(mem, head, free)
      ensures var bn := b - old(Word(mem, b + 4));
        && Word(mem, b) == old(Word(mem, b)) && Word(mem, b + 4) == -size
        && Word(mem, b + size) == 0 && Word(mem, b + size + 4) == bn - b - size == Word(mem, bn)
        && forall c :: !(b <= c < bn + 4) && !NodeCell(head, old(free), c) ==> Word(mem, c) == Word(old(mem), c)
    {
      ghost var m0, fl := mem, free;
      var freeSize := -Word(mem, b + 4) - size;
      var bn := b - Word(mem, b + 4);
      Store(b + 4, -size);
      RingKeptOutside(m0, mem, head, fl);
      NodeCellAppended(head, fl, b + size);
      CreateFreeBlock(b + size, freeSize, bn);
    }

    /** Cut block k down to newSize bytes and free the rest. */
    method CutBack(b: int, newSize: int, ghost k: int)
      requires IsHeap(mem, head, blocks, free) && 0 <= k < |blocks| && blocks[k].at == b
      requires Trimmable(blocks[k], newSize)
      modifies this`mem, this`free
      ensures |mem| == |old(mem)|
      ensures IsHeap(mem, head, Recut(blocks, k, RunEnd(blocks, k), BackCut(blocks, k, newSize)), free)
      ensures KeepsLive(old(mem), mem, blocks, Recut(blocks, k, RunEnd(blocks, k), BackCut(blocks, k, newSize)), {b})
    {
      ghost var m0, bs, fl := mem, blocks, free;
      BackFacts(mem, head, blocks, free, k, newSize);
      var bn := b - Word(mem, b + 4);
      ghost var p := 0;
      if Word(mem, bn + 4) > 0 {
        p := PositionOf(mem, head, blocks, free, k + 1);
        BackToNext(b, newSize, p);
      } else {
        BackAlone(b, newSize);
      }
      BackCutListed(m0, head, bs, fl, k, newSize, p);
      BackCutIsHeap(m0, mem, head, bs, fl, k, newSize, free);
    }

    /** Give back what a request of size bytes does not need at the end of a buffer. */
    method BrelAfter(buf: int, size: int, ghost k: int)
      requires Valid() && 0 <= k < |blocks| && blocks[k].kind.Used? && blocks[k].at + BHEAD == buf
      requires 0 <= size && Need(size) <= blocks[k].size
      modifies this
      ensures Valid() && |mem| == |old(mem)|
      ensures blocks == AfterTrim(old(blocks), k, Need(size))
      ensures KeepsLive(old(mem), mem, old(blocks), blocks, {buf - BHEAD})
    {
      var b := buf - BHEAD;
      var newSize := Need(size);
      HasNext(mem, head, blocks, free, k);
      var freeSize := -Word(mem, b + 4) - newSize;
      if freeSize < MIN_BLOCK {
        KeepsLiveSame(mem, blocks);
      } else {
        CutBack(b, newSize, k);
        BackCutTotals(blocks, k, newSize);
        totalloc := totalloc - freeSize;
        blocks := AfterTrim(blocks, k, newSize);
      }
    }

    /** Put nbf in bn's place in the free list. */
    method TakeOver(nbf: int, bn: int, ghost p: int)
      requires Ring(mem, head, free) && Spaced(head, free) && 0 <= p < |free| && free[p] == bn
      requires HasLinks(mem, nbf) && nbf + MIN_BLOCK <= bn
      requires forall c :: nbf <= c < nbf + 16 ==> !NodeCell(head, free, c)
      modifies this`mem, this`free
      ensures |mem| == |old(mem)| && free == old(free)[p := nbf] && Ring(mem, head, free)
      ensures forall c :: !(nbf + 8 <= c < nbf + 16) && !NodeCell(head, old(free), c)
                          ==> Word(mem, c) == Word(old(mem), c)
    {
      ghost var m0, fl := mem, free;
      assert RingLink(mem, head, fl, p) && RingLink(mem, head, fl, p + 1) && RingAt(head, fl, p + 1) == bn;
      NodeWords(head, fl, p);
      NodeWords(head, fl, p + 1);
      NodeWords(head, fl, p + 2);
      assert !NodeCell(head, fl, nbf + 8) && !NodeCell(head, fl, nbf + 12);
      Store(nbf + 12, Word(mem, bn + 12));
      Store(nbf + 8, Word(mem, bn + 8));
      Store(Word(mem, nbf + 12) + 8, nbf);
      Store(Word(mem, nbf + 8) + 12, nbf);
      RingReplaces(m0, mem, head, fl, p, nbf);
      free := fl[p := nbf];
    }

    /** Write the headers of a pool that is one free block and a sentinel, and list the block. */
    method WritePool(buf: int, len: int)
      requires Ring(mem, head, free) && Spaced(head, free + [buf]) && HasLinks(mem, buf)
      requires MIN_BLOCK + BHEAD <= len && buf + len <= |mem|
      requires forall c :: NodeCell(head, free, c) ==> !(buf <= c < buf + len)
      modifies this`mem, this`free
      ensures |mem| == |old(mem)| && free == old(free) + [buf] && Ring(mem, head, free)
      ensures Word(mem, buf) == 0 && Word(mem, buf + 4) == len - BHEAD == Word(mem, buf + len - BHEAD)
      ensures Word(mem, buf + len - BHEAD + 4) == ESENT
      ensures forall c :: !(buf <= c < buf + len) && !NodeCell(head, old(free), c) ==> Word(mem, c) == Word(old(mem), c)
    {
      ghost var m0, fl := mem, free;
      NodeCellAppended(head, fl, buf);
      Store(buf, 0);
      RingKeptOutside(m0, mem, head, fl);
      Link(buf);
      ghost var m1 := mem;
      var length := len - BHEAD;
      Store(buf + 4, length);
      Store(buf + length, length);
      Store(buf + length + 4, ESENT);
      RingKeptOutside(m1, mem, head, free);
    }

    /** Add a region of memory to the heap. */
    method Bpool(buf: int, len: int)
      requires Valid() && PoolFits(mem, head, blocks, buf, len / QUANTUM * QUANTUM)
      modifies this
      ensures Valid() && |mem| == |old(mem)|
      ensures blocks == old(blocks) + NewPool(buf, len / QUANTUM * QUANTUM)
      ensures KeepsLive(old(mem), mem, old(blocks), blocks, {})
    {
      ghost var m0, bs, fl := mem, blocks, free;
      var length := len / QUANTUM * QUANTUM;
      PoolFacts(mem, head, blocks, free, buf, length);
      WritePool(buf, length);
      PoolIsHeap(m0, mem, head, bs, fl, buf, length);
      PoolTotals(bs, buf, length);
      blocks := bs + NewPool(buf, length);
    }
  }

  /** m1 has the free successor unlinked, m' the joined block's size written. */
  lemma SwallowedIsHeap(m: Memory, m1: Memory, m': Memory, head: int, bs: seq<Block>, fl: seq<int>, k: int, p: int)
    requires IsHeap(m, head, bs, fl) && 0 <= k < |bs| - 1 && bs[k].kind.Used? && NextFree(bs, k)
    requires var gl := ListAfterJoin(bs, fl, k);
      && 0 <= p < |gl| && gl[p] == bs[k + 1].at && Ring(m1, head, Without(gl, p))
    requires |m1| == |m'| == |m| && RunEnd(bs, k) < |bs|
    requires var b, e := Joined(bs, k).at, bs[RunEnd(bs, k)].at;
      && Word(m', b + 4) == Joined(bs, k).size == Word(m', e)
      && (forall c ::
        !(b + 4 <= c < b + 8) && !NodeCell(head, ListAfterJoin(bs, fl, k), c) ==> Word(m1, c) == Word(m, c))
      && (forall c :: !(b + 4 <= c < b + 8) && !(e <= c < e + 4) ==> Word(m', c) == Word(m1, c))
    ensures IsHeap(m', head, Released(bs, k), Without(ListAfterJoin(bs, fl, k), p))
    ensures KeepsLive(m, m', bs, Released(bs, k), {bs[k].at})
  {
    var gl := ListAfterJoin(bs, fl, k);
    JoinedElems(m, head, bs, fl, k);
    JoinHeaders(m, head, bs, fl, k);
    var hl := Without(gl, p);
    forall c | NodeCell(head, hl, c) ensures NodeCell(head, gl, c) { NodeCellsShrink(head, gl, p, c); }
    RingKeptOutside(m1, m', head, hl);
    WithoutElems(gl, p);
    ReleaseListed(bs, |m|, k, fl, hl);
    ReleasedIsHeap(m, m', head, bs, fl, k, hl);
  }

  lemma NewNodeIsFresh(head: int, fl: seq<int>, b: int)
    requires Spaced(head, fl + [b])
    ensures forall c :: b + 8 <= c < b + 16 ==> !NodeCell(head, fl, c)
  {
    var gl := fl + [b];
    assert gl[|fl|] == b;
    forall p | 0 <= p < |fl| ensures Gap(fl[p], b) { assert Gap(gl[p], gl[|fl|]); }
  }

  /** Where no free block has the size that serves a request, none could hold it. */
  lemma NoneCanHold(m: Memory, head: int, bs: seq<Block>, fl: seq<int>, requested: int)
    requires IsHeap(m, head, bs, fl) && 0 <= requested
    requires forall i :: 0 <= i < |bs| && bs[i].kind.Free? ==> bs[i].size < Need(requested)
    ensures forall i :: 0 <= i < |bs| && bs[i].kind.Free? ==> bs[i].size < requested + BHEAD
  {
    forall i | 0 <= i < |bs| && bs[i].kind.Free? ensures bs[i].size < requested + BHEAD {
      assert Sized(bs[i], |m|);
      if requested + BHEAD <= bs[i].size { NeedIsLeast(requested, bs[i].size); }
    }
  }

  lemma TakenIsFresh(m: Memory, head: int, bs: seq<Block>, fl: seq<int>, k: int, n: int, requested: int)
    requires IsHeap(m, head, bs, fl) && 0 <= k < |bs| && bs[k].kind.Free? && MIN_BLOCK <= n <= bs[k].size
    requires n % QUANTUM == 0 && requested + BHEAD <= n <= BHEAD + Max(requested, QUANTUM) + (QUANTUM - 1)
    ensures var buf := (if bs[k].size - n > MIN_BLOCK then bs[k].Limit() - n else bs[k].at) + BHEAD;
      var cs := Recut(bs, k, k + 1, TakeFrom(bs[k], n));
      IsFreshBuffer(bs, cs, buf, requested) && IsSnug(cs, buf, requested)
  {
    assert Sized(bs[k], |m|);
    var mid := TakeFrom(bs[k], n);
    assert mid[|mid| - 1].at % QUANTUM == 0 by {
      Multiples(bs[k].at, bs[k].size);
      Multiples(bs[k].Limit(), n);
    }
    StartsAreElsewhere(bs, |m|, k, mid[|mid| - 1].at);
    LastOfRun(bs, k, mid, requested);
  }

  /** A recut run ends with a fresh buffer when no other block starts there. */
  lemma LastOfRun(bs: seq<Block>, k: int, mid: seq<Block>, requested: int)
    requires 0 <= k < |bs| && bs[k].kind.Free? && 1 <= |mid| <= 2
    requires var u := mid[|mid| - 1];
      && u.kind.Used? && 0 <= u.at && u.at % QUANTUM == 0
      && requested + BHEAD <= u.size <= BHEAD + Ample(requested)
      && (forall i :: 0 <= i < |bs| && i != k ==> bs[i].at != u.at)
      && (|mid| == 2 ==> mid[0].at != u.at)
    ensures IsFreshBuffer(bs, Recut(bs, k, k + 1, mid), mid[|mid| - 1].at + BHEAD, requested)
    ensures IsSnug(Recut(bs, k, k + 1, mid), mid[|mid| - 1].at + BHEAD, requested)
  {
    var cs, u := Recut(bs, k, k + 1, mid), mid[|mid| - 1];
    RecutAt(bs, k, k + 1, mid, k + |mid| - 1);
    assert u.at in Starts(Used, cs);
    forall i | 0 <= i < |cs| && cs[i].at == u.at ensures cs[i].size == u.size {
      RecutAt(bs, k, k + 1, mid, i);
    }
  }

  /** No other block starts inside block k. */
  lemma StartsAreElsewhere(bs: seq<Block>, top: int, k: int, a: int)
    requires Shape(bs, top) && 0 <= k < |bs| && bs[k].at <= a < bs[k].Limit()
    ensures forall i :: 0 <= i < |bs| && i != k ==> bs[i].at != a
  {
    forall i | 0 <= i < |bs| && i != k ensures bs[i].at != a {
      assert Sized(bs[i], top);
      assert if i < k then ApartAt(bs, i, k) else ApartAt(bs, k, i);
    }
  }

  /** Block k after its end has been given back, when there is enough of it. */
  function AfterTrim(bs: seq<Block>, k: int, n: int): seq<Block>
    requires 0 <= k < |bs|
  {
    if bs[k].size - n < MIN_BLOCK then bs else Recut(bs, k, RunEnd(bs, k), BackCut(bs, k, n))
  }

  /** The back of a block is given back exactly when it is sixteen bytes or more: what is kept is then n bytes, and in
      any case less than n and sixteen. */
  lemma TrimmedIs(bs: seq<Block>, k: int, n: int)
    requires 0 <= k < |bs|
    ensures
      var cs := AfterTrim(bs, k, n);
      && k < |cs| && cs[k].at == bs[k].at && cs[k].size < n + 16
      && (bs[k].size < n + 16 ==> cs == bs)
      && (bs[k].size >= n + 16 ==>
        cs[k].size == n && k + 1 < |cs| && cs[k + 1].kind.Free? && cs[k + 1].at == bs[k].at + n)
  {
  }

  lemma KeepsLiveSame(m: Memory, bs: seq<Block>)
    ensures KeepsLive(m, m, bs, bs, {})
  {
  }
}
