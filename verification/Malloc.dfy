/**
 malloc, calloc, realloc, memalign and free (bget_malloc.c) on top of the BGET heap, without the
 debug headers' contents: hdr and ftr are the extra bytes the caller wants before and after the
 payload.  Results are addresses, 0 being NULL.
 */
module Malloc {
  import opened Arith
  import opened Seqs
  import opened HeapLayout
  import opened HeapSteps
  import opened Bget
  import opened HeapBases

  // ---------------------------------------------------------------- live buffers and their contents

  function Cells(m: Memory, lo: int, hi: int): (s: seq<int>)
    ensures |s| == if lo <= hi then hi - lo else 0
    ensures forall i :: 0 <= i < |s| ==> s[i] == Word(m, lo + i)
  {
    if lo <= hi then seq(hi - lo, i => Word(m, lo + i)) else []
  }

  /** The contents of a live buffer. */
  ghost function Payload(m: Memory, bs: seq<Block>, buf: int): seq<int>
    requires IsLive(bs, buf)
  {
    Cells(m, buf, bs[IndexOf(bs, buf)].Limit())
  }

  /** The live buffers and what they hold: all a client can observe. */
  ghost function LiveMap(m: Memory, bs: seq<Block>): map<int, seq<int>> {
    map a | a in Starts(Used, bs) :: Payload(m, bs, a + BHEAD)
  }

  /** A live buffer that an operation keeps has the same contents afterwards. */
  lemma KeptPayload(m: Memory, m': Memory, bs: seq<Block>, cs: seq<Block>, lost: set<int>, buf: int)
    requires Shape(bs, |m|) && Shape(cs, |m|) && |m'| == |m|
    requires KeepsLive(m, m', bs, cs, lost) && IsLive(bs, buf) && buf - BHEAD !in lost
    ensures IsLive(cs, buf) && Payload(m', cs, buf) == Payload(m, bs, buf)
    ensures cs[IndexOf(cs, buf)] == bs[IndexOf(bs, buf)]
  {
    var q := IndexOf(bs, buf);
    var r :| 0 <= r < |cs| && cs[r] == bs[q];
    assert cs[r].kind.Used? && cs[r].at + BHEAD == buf;
    SameBlock(cs, |m|, IndexOf(cs, buf), r);
    assert Sized(bs[q], |m|);
  }

  /** What the operations do to the live buffers, from which blocks they lose and gain. */
  lemma LiveMapStep(m: Memory, m': Memory, bs: seq<Block>, cs: seq<Block>, lost: set<int>, came: set<int>)
    requires Shape(bs, |m|) && Shape(cs, |m|) && |m'| == |m|
    requires KeepsLive(m, m', bs, cs, lost)
    requires Starts(Used, cs) == Starts(Used, bs) - lost + came
    ensures LiveMap(m', cs).Keys == LiveMap(m, bs).Keys - lost + came
    ensures forall a :: a in LiveMap(m, bs) && a !in lost ==> LiveMap(m', cs)[a] == LiveMap(m, bs)[a]
  {
    forall a | a in LiveMap(m, bs) && a !in lost ensures LiveMap(m', cs)[a] == LiveMap(m, bs)[a] {
      KeptPayload(m, m', bs, cs, lost, a + BHEAD);
    }
  }

  /** Live buffers lie inside their pools and do not overlap. */
  lemma LiveBuffersApart(m: Memory, head: int, bs: seq<Block>, fl: seq<int>, b1: int, b2: int)
    requires IsHeap(m, head, bs, fl) && IsLive(bs, b1) && IsLive(bs, b2) && b1 != b2
    ensures b1 + |Payload(m, bs, b1)| <= b2 - BHEAD || b2 + |Payload(m, bs, b2)| <= b1 - BHEAD
  {
    var i, j := IndexOf(bs, b1), IndexOf(bs, b2);
    assert Sized(bs[i], |m|) && Sized(bs[j], |m|);
    assert if i < j then ApartAt(bs, i, j) else ApartAt(bs, j, i);
  }

  /** Two steps in a row keep what was live before, when the second gives up only the first's new buffer. */
  lemma KeepsLiveTwice(m: Memory, m1: Memory, m2: Memory, bs: seq<Block>, cs: seq<Block>, ds: seq<Block>, x: int)
    requires KeepsLive(m, m1, bs, cs, {})
    requires KeepsLive(m1, m2, cs, ds, {x})
    requires |m| == |m1| == |m2|
    requires x !in Starts(Used, bs)
    ensures KeepsLive(m, m2, bs, ds, {})
  {
    forall q | 0 <= q < |bs| && bs[q].kind.Used?
      ensures bs[q] in ds && SameSpan(m, m2, bs[q].at + BHEAD, bs[q].Limit())
    {
      var r :| 0 <= r < |cs| && cs[r] == bs[q];
      assert bs[q].at in Starts(Used, bs);
    }
  }

  // ---------------------------------------------------------------- which buffers each step leaves live

  lemma TakeStarts(bs: seq<Block>, top: int, k: int, n: int)
    requires Shape(bs, top) && 0 <= k < |bs| - 1 && bs[k].kind.Free?
    ensures Starts(Used, Recut(bs, k, k + 1, TakeFrom(bs[k], n))) ==
      Starts(Used, bs) + {if bs[k].size - n > MIN_BLOCK then bs[k].Limit() - n else bs[k].at}
  {
    var mid := TakeFrom(bs[k], n);
    assert bs[k..k + 1] == [bs[k]];
    StartsOne(Used, bs[k]);
    if bs[k].size - n > MIN_BLOCK { StartsTwo(Used, mid[0], mid[1]); } else { StartsOne(Used, mid[0]); }
    RecutStarts(Used, bs, top, k, k + 1, mid);
  }

  lemma ReleaseStarts(bs: seq<Block>, top: int, k: int)
    requires Shape(bs, top) && 0 <= k < |bs| && bs[k].kind.Used?
    ensures Starts(Used, Released(bs, k)) == Starts(Used, bs) - {bs[k].at}
  {
    var i, j := RunStart(bs, k), RunEnd(bs, k);
    JoinedSize(bs, top, k);
    assert bs[i..j] == bs[i..k] + ([bs[k]] + bs[k + 1..j]);
    StartsSplit(Used, bs[i..k], [bs[k]] + bs[k + 1..j]);
    StartsSplit(Used, [bs[k]], bs[k + 1..j]);
    StartsOne(Used, bs[k]);
    StartsOne(Used, Joined(bs, k));
    RecutStarts(Used, bs, top, i, j, [Joined(bs, k)]);
  }

  lemma FrontCutStarts(bs: seq<Block>, top: int, k: int, n: int)
    requires Shape(bs, top) && 0 <= k < |bs| - 1 && Trimmable(bs[k], n)
    ensures Starts(Used, Recut(bs, RunStart(bs, k), k + 1, FrontCut(bs, k, n))) ==
      Starts(Used, bs) - {bs[k].at} + {bs[k].at + n}
  {
    var i, mid := RunStart(bs, k), FrontCut(bs, k, n);
    if PrevFree(bs, k) {
      assert bs[i..k + 1] == [bs[i], bs[k]];
      StartsTwo(Used, bs[i], bs[k]);
    } else {
      assert bs[i..k + 1] == [bs[k]];
      StartsOne(Used, bs[k]);
    }
    StartsTwo(Used, mid[0], mid[1]);
    RecutStarts(Used, bs, top, i, k + 1, mid);
  }

  lemma BackCutStarts(bs: seq<Block>, top: int, k: int, n: int)
    requires Shape(bs, top) && 0 <= k < |bs| - 1 && Trimmable(bs[k], n)
    ensures Starts(Used, Recut(bs, k, RunEnd(bs, k), BackCut(bs, k, n))) == Starts(Used, bs)
  {
    var j, mid := RunEnd(bs, k), BackCut(bs, k, n);
    BackCutSize(bs, top, k, n);
    if NextFree(bs, k) {
      assert bs[k..j] == [bs[k], bs[k + 1]];
      StartsTwo(Used, bs[k], bs[k + 1]);
    } else {
      CutAround(bs, k);
      StartsOne(Used, bs[k]);
    }
    StartsTwo(Used, mid[0], mid[1]);
    RecutStarts(Used, bs, top, k, j, mid);
  }

  // ---------------------------------------------------------------- writing to a buffer

  /** Writing inside one live buffer keeps the heap and every other buffer. */
  lemma PayloadWrite(m: Memory, m': Memory, head: int, bs: seq<Block>, fl: seq<int>, k: int)
    requires IsHeap(m, head, bs, fl) && 0 <= k < |bs| && bs[k].kind.Used? && |m'| == |m|
    requires forall c :: !(bs[k].at + BHEAD <= c < bs[k].Limit()) ==> Word(m', c) == Word(m, c)
    ensures IsHeap(m', head, bs, fl)
    ensures KeepsLive(m, m', bs, bs, {bs[k].at})
  {
    assert Sized(bs[k], |m|);
    forall i | 0 <= i < |bs| ensures HeaderAt(m', bs, i) {
      assert HeaderAt(m, bs, i) && Sized(bs[i], |m|);
      if i != k { assert if i < k then ApartAt(bs, i, k) else ApartAt(bs, k, i); }
    }
    forall c | InLinks(head, bs, c) ensures Word(m', c) == Word(m, c) {
      if bs[k].at + BHEAD <= c < bs[k].Limit() { IsNotLink(m, head, bs, fl, k, c); }
    }
    RingSurvives(m, m', head, bs, fl);
    forall q | 0 <= q < |bs| && bs[q].kind.Used? && bs[q].at != bs[k].at
      ensures SameSpan(m, m', bs[q].at + BHEAD, bs[q].Limit())
    {
      assert if q < k then ApartAt(bs, q, k) else ApartAt(bs, k, q);
    }
  }

  /** memset(dst, 0, n) */
  method Clear(h: Heap, dst: int, n: int)
    requires 0 <= dst && 0 <= n && dst + n <= |h.mem|
    modifies h`mem
    ensures |h.mem| == |old(h.mem)|
    ensures forall c :: Word(h.mem, c) == if dst <= c < dst + n then 0 else Word(old(h.mem), c)
  {
    h.mem := h.mem[..dst] + seq(n, i => 0) + h.mem[dst + n..];
  }

  /** memcpy(dst, src, n) */
  method Copy(h: Heap, dst: int, src: int, n: int)
    requires 0 <= dst && 0 <= src && 0 <= n && dst + n <= |h.mem| && src + n <= |h.mem|
    modifies h`mem
    ensures |h.mem| == |old(h.mem)|
    ensures forall c :: Word(h.mem, c) == Word(old(h.mem), if dst <= c < dst + n then src + (c - dst) else c)
  {
    h.mem := h.mem[..dst] + h.mem[src..src + n] + h.mem[dst + n..];
  }

  // ---------------------------------------------------------------- the allocation interface

  /** A new live buffer p of at least n cells, and not many more, appeared, and nothing else changed for clients. */
  ghost predicate Allocated(m: Memory, bs: seq<Block>, m': Memory, bs': seq<Block>, p: int, n: int) {
    GainsBuffer(m, bs, m', bs', p, n) == true
  }

  ghost predicate GainsBuffer(m: Memory, bs: seq<Block>, m': Memory, bs': seq<Block>, p: int, n: int) {
    var old', now := LiveMap(m, bs), LiveMap(m', bs');
    && p - BHEAD !in old' && now.Keys == old'.Keys + {p - BHEAD}
    && n <= |now[p - BHEAD]| <= Ample(n)
    && forall a :: a in old' ==> now[a] == old'[a]
  }

  ghost predicate Unchanged(m: Memory, bs: seq<Block>, m': Memory, bs': seq<Block>) {
    m == m' && bs == bs'
  }

  /** No free block could hold n bytes and a header. */
  ghost predicate Exhausted(bs: seq<Block>, n: int) {
    forall i :: 0 <= i < |bs| && bs[i].kind.Free? ==> bs[i].size < n + BHEAD
  }

  lemma AllocatedStep(m: Memory, m': Memory, bs: seq<Block>, cs: seq<Block>, buf: int, requested: int)
    requires Shape(bs, |m|) && Shape(cs, |m|) && |m'| == |m|
    requires IsFreshBuffer(bs, cs, buf, requested) && IsSnug(cs, buf, requested)
    requires Starts(Used, cs) == Starts(Used, bs) + {buf - BHEAD}
    requires KeepsLive(m, m', bs, cs, {})
    ensures Allocated(m, bs, m', cs, buf, requested)
  {
    LiveMapStep(m, m', bs, cs, {}, {buf - BHEAD});
    var k := IndexOf(cs, buf);
    assert cs[k].at + BHEAD == buf;
  }

  lemma GetStarts(m: Memory, head: int, bs: seq<Block>, fl: seq<int>, k: int, n: int)
    requires IsHeap(m, head, bs, fl) && 0 <= k < |bs| && bs[k].kind.Free?
    ensures Starts(Used, Recut(bs, k, k + 1, TakeFrom(bs[k], n))) ==
      Starts(Used, bs) + {if bs[k].size - n > MIN_BLOCK then bs[k].Limit() - n else bs[k].at}
  {
    HasNext(m, head, bs, fl, k);
    TakeStarts(bs, |m|, k, n);
  }

  /** bget as clients see it. */
  method Get(h: Heap, requested: int) returns (buf: int)
    requires h.Valid() && 0 < requested <= MAX_REQUEST
    modifies h
    ensures h.Valid() && |h.mem| == |old(h.mem)|
    ensures buf == 0 <==> Exhausted(old(h.blocks), requested)
    ensures buf == 0 ==> Unchanged(old(h.mem), old(h.blocks), h.mem, h.blocks)
    ensures buf != 0 ==> Allocated(old(h.mem), old(h.blocks), h.mem, h.blocks, buf, requested)
    ensures buf != 0 ==> IsFreshBuffer(old(h.blocks), h.blocks, buf, requested) && IsSnug(h.blocks, buf, requested)
    ensures buf != 0 ==> Starts(Used, h.blocks) == Starts(Used, old(h.blocks)) + {buf - BHEAD}
    ensures KeepsLive(old(h.mem), h.mem, old(h.blocks), h.blocks, {})
    ensures SamePools(old(h.blocks), h.blocks)
  {
    ghost var m0, bs, fl := h.mem, h.blocks, h.free;
    ghost var k, p;
    buf, k, p := h.Bget(requested);
    if buf != 0 {
      GetStarts(m0, h.head, bs, fl, k, Need(requested));
      TakeBases(m0, h.head, bs, fl, k, Need(requested));
      AllocatedStep(m0, h.mem, bs, h.blocks, buf, requested);
    }
  }

  /** Clear all of a live buffer. */
  method Wipe(h: Heap, buf: int)
    requires h.Valid() && IsLive(h.blocks, buf)
    modifies h`mem
    ensures h.Valid() && |h.mem| == |old(h.mem)|
    ensures KeepsLive(old(h.mem), h.mem, h.blocks, h.blocks, {buf - BHEAD})
    ensures forall i :: 0 <= i < |Payload(h.mem, h.blocks, buf)| ==> Payload(h.mem, h.blocks, buf)[i] == 0
  {
    ghost var m1, k := h.mem, IndexOf(h.blocks, buf);
    HasNext(h.mem, h.head, h.blocks, h.free, k);
    var rsize := -Word(h.mem, buf - BHEAD + 4) - BHEAD;
    Clear(h, buf, rsize);
    PayloadWrite(m1, h.mem, h.head, h.blocks, h.free, k);
  }

  /** bgetz: the whole buffer, not just the part asked for, is cleared. */
  method GetZeroed(h: Heap, requested: int) returns (buf: int)
    requires h.Valid() && 0 < requested <= MAX_REQUEST
    modifies h
    ensures h.Valid() && |h.mem| == |old(h.mem)|
    ensures buf == 0 <==> Exhausted(old(h.blocks), requested)
    ensures buf == 0 ==> Unchanged(old(h.mem), old(h.blocks), h.mem, h.blocks)
    ensures SamePools(old(h.blocks), h.blocks)
    ensures buf != 0 ==> Allocated(old(h.mem), old(h.blocks), h.mem, h.blocks, buf, requested)
    ensures buf != 0 ==>
      IsLive(h.blocks, buf) && forall i ::
      0 <= i < |Payload(h.mem, h.blocks, buf)| ==> Payload(h.mem, h.blocks, buf)[i] == 0
  {
    ghost var m0, bs := h.mem, h.blocks;
    buf := Get(h, requested);
    if buf != 0 {
      ghost var m1 := h.mem;
      Wipe(h, buf);
      KeepsLiveTwice(m0, m1, h.mem, bs, h.blocks, h.blocks, buf - BHEAD);
      AllocatedStep(m0, h.mem, bs, h.blocks, buf, requested);
    }
  }

  /** free on a live pointer, or on NULL, which is ignored. */
  method RawFree(h: Heap, ptr: int)
    requires h.Valid() && (ptr != 0 ==> IsLive(h.blocks, ptr))
    modifies h
    ensures h.Valid() && |h.mem| == |old(h.mem)|
    ensures LiveMap(h.mem, h.blocks) == LiveMap(old(h.mem), old(h.blocks)) - {ptr - BHEAD}
    ensures KeepsLive(old(h.mem), h.mem, old(h.blocks), h.blocks, {ptr - BHEAD})
    ensures SamePools(old(h.blocks), h.blocks)
  {
    ghost var m0, bs := h.mem, h.blocks;
    if ptr != 0 {
      ghost var k := IndexOf(bs, ptr);
      h.Brel(ptr);
      ReleaseStarts(bs, |m0|, k);
      ReleaseBases(bs, |m0|, k);
      LiveMapStep(m0, h.mem, bs, h.blocks, {ptr - BHEAD}, {});
    } else {
      NullIsNotLive(m0, h.head, bs, h.free);
    }
  }

  lemma NullIsNotLive(m: Memory, head: int, bs: seq<Block>, fl: seq<int>)
    requires IsHeap(m, head, bs, fl)
    ensures -BHEAD !in Starts(Used, bs) && !IsLive(bs, 0)
    ensures LiveMap(m, bs) - {-BHEAD} == LiveMap(m, bs)
    ensures KeepsLive(m, m, bs, bs, {0 - BHEAD})
  {
    forall k | 0 <= k < |bs| ensures bs[k].at != -BHEAD { assert Sized(bs[k], |m|); }
  }

  /** realloc: the old buffer is replaced by a new one that starts with the same cells. */
  ghost predicate Reallocated(m: Memory, bs: seq<Block>, m': Memory, bs': seq<Block>, buf: int, nbuf: int, n: int) {
    MovesBuffer(m, bs, m', bs', buf, nbuf, n) == true
  }

  ghost predicate MovesBuffer(m: Memory, bs: seq<Block>, m': Memory, bs': seq<Block>, buf: int, nbuf: int, n: int) {
    var old', now := LiveMap(m, bs), LiveMap(m', bs');
    && buf - BHEAD in old' && nbuf - BHEAD !in old'
    && now.Keys == old'.Keys - {buf - BHEAD} + {nbuf - BHEAD}
    && n <= |now[nbuf - BHEAD]| <= Ample(n)
    && SamePrefix(old'[buf - BHEAD], now[nbuf - BHEAD], n)
    && forall a :: a in old' && a != buf - BHEAD ==> now[a] == old'[a]
  }

  /** s and t agree on their first n cells, as far as s goes. */
  ghost predicate SamePrefix(s: seq<int>, t: seq<int>, n: int)
    requires n <= |t|
  {
    forall i :: 0 <= i < n && i < |s| ==> t[i] == s[i]
  }

  /** bgetr */
  method GetAgain(h: Heap, buf: int, size: int) returns (nbuf: int)
    requires h.Valid() && 0 < size <= MAX_REQUEST && (buf != 0 ==> IsLive(h.blocks, buf))
    modifies h
    ensures h.Valid() && |h.mem| == |old(h.mem)|
    ensures nbuf == 0 <==> Exhausted(old(h.blocks), size)
    ensures nbuf == 0 ==> Unchanged(old(h.mem), old(h.blocks), h.mem, h.blocks)
    ensures nbuf != 0 && buf == 0 ==> Allocated(old(h.mem), old(h.blocks), h.mem, h.blocks, nbuf, size)
    ensures nbuf != 0 && buf != 0 ==> Reallocated(old(h.mem), old(h.blocks), h.mem, h.blocks, buf, nbuf, size)
    ensures SamePools(old(h.blocks), h.blocks)
  {
    ghost var m0, bs := h.mem, h.blocks;
    nbuf := Get(h, size);
    if nbuf == 0 || buf == 0 { return; }
    ghost var m1, cs := h.mem, h.blocks;
    KeptPayload(m0, m1, bs, cs, {}, buf);
    Move(h, buf, nbuf, size);
    ghost var m2 := h.mem;
    RawFree(h, buf);
    ReallocatedStep(m0, m1, m2, h.mem, bs, cs, h.blocks, buf, nbuf, size);
  }

  /** Copy what fits of buffer buf to buffer nbuf. */
  method Move(h: Heap, buf: int, nbuf: int, size: int)
    requires h.Valid() && IsLive(h.blocks, buf) && IsLive(h.blocks, nbuf) && buf != nbuf
    requires 0 <= size <= |Payload(h.mem, h.blocks, nbuf)|
    modifies h`mem
    ensures |Payload(h.mem, h.blocks, nbuf)| == |Payload(old(h.mem), h.blocks, nbuf)|
    ensures h.Valid() && |h.mem| == |old(h.mem)|
    ensures KeepsLive(old(h.mem), h.mem, h.blocks, h.blocks, {nbuf - BHEAD})
    ensures var p, q := Payload(old(h.mem), h.blocks, buf), Payload(h.mem, h.blocks, nbuf);
      |q| >= size && forall i :: 0 <= i < size && i < |p| ==> q[i] == p[i]
  {
    ghost var m1, i, j := h.mem, IndexOf(h.blocks, buf), IndexOf(h.blocks, nbuf);
    HasNext(h.mem, h.head, h.blocks, h.free, i);
    HasNext(h.mem, h.head, h.blocks, h.free, j);
    LiveBuffersApart(h.mem, h.head, h.blocks, h.free, buf, nbuf);
    var osize := -Word(h.mem, buf - BHEAD + 4) - BHEAD;
    var n := if size < osize then size else osize;
    Copy(h, nbuf, buf, n);
    PayloadWrite(m1, h.mem, h.head, h.blocks, h.free, j);
  }

  lemma LiveAt(m: Memory, bs: seq<Block>, buf: int)
    requires IsLive(bs, buf)
    ensures buf - BHEAD in LiveMap(m, bs) && LiveMap(m, bs)[buf - BHEAD] == Payload(m, bs, buf)
  {
  }

  lemma ReallocatedStep(m0: Memory, m1: Memory, m2: Memory, m3: Memory, bs: seq<Block>, cs: seq<Block>, ds: seq<Block>,
                        buf: int, nbuf: int, n: int)
    requires |m1| == |m2| && Shape(cs, |m1|) && buf != nbuf
    requires IsLive(bs, buf) && IsLive(cs, nbuf) && IsLive(cs, buf)
    requires Allocated(m0, bs, m1, cs, nbuf, n) && Payload(m1, cs, buf) == Payload(m0, bs, buf)
    requires KeepsLive(m1, m2, cs, cs, {nbuf - BHEAD})
    requires var p, q := Payload(m1, cs, buf), Payload(m2, cs, nbuf);
      n <= |q| <= Ample(n) && forall i :: 0 <= i < n && i < |p| ==> q[i] == p[i]
    requires LiveMap(m3, ds) == LiveMap(m2, cs) - {buf - BHEAD}
    ensures Reallocated(m0, bs, m3, ds, buf, nbuf, n)
  {
    LiveAt(m0, bs, buf);
    LiveAt(m2, cs, nbuf);
    LiveMapStep(m1, m2, cs, cs, {nbuf - BHEAD}, {nbuf - BHEAD});
    ReplacedKey(LiveMap(m0, bs), LiveMap(m1, cs), LiveMap(m2, cs), buf - BHEAD, nbuf - BHEAD);
  }

  lemma ReplacedKey(m0: map<int, seq<int>>, m1: map<int, seq<int>>, m2: map<int, seq<int>>, x: int, y: int)
    requires x in m0 && y !in m0 && m1.Keys == m0.Keys + {y} == m2.Keys
    requires forall a :: a in m0 ==> m1[a] == m0[a]
    requires forall a :: a in m1 && a != y ==> m2[a] == m1[a]
    ensures (m2 - {x}).Keys == m0.Keys - {x} + {y} && (m2 - {x})[y] == m2[y]
    ensures forall a :: a in m0 && a != x ==> (m2 - {x})[a] == m0[a]
  {
  }

  // ---------------------------------------------------------------- raw_malloc and friends

  /** The extra bytes are few enough that a wrapped sum is smaller than the payload. */
  ghost predicate Extras(hdr: int, ftr: int) {
    0 <= hdr && 0 <= ftr && hdr + ftr + 16 < 0x8000_0000 && hdr % QUANTUM == 0
  }

  /** What BGET demands of a request that passes the wrap test: its size is a bufsize. */
  predicate Asks(hdr: int, ftr: int, size: int) {
    0 <= size < WORD_LIMIT && (Sum32(hdr + ftr + size) >= size ==> Sum32(hdr + ftr + size) <= MAX_REQUEST)
  }

  /** A request for no bytes is served as one for a byte. */
  function AtLeastOne(n: int): int { if n == 0 then 1 else n }

  /** The request wraps, or no free block can serve it. */
  ghost predicate Refused(bs: seq<Block>, n: int)
    requires 0 <= n
  {
    n >= WORD_LIMIT || Exhausted(bs, AtLeastOne(n))
  }

  method RawMalloc(h: Heap, hdr: int, ftr: int, size: int) returns (p: int)
    requires h.Valid() && Extras(hdr, ftr) && Asks(hdr, ftr, size)
    modifies h
    ensures h.Valid() && |h.mem| == |old(h.mem)| && SamePools(old(h.blocks), h.blocks)
    ensures p == 0 <==> Refused(old(h.blocks), hdr + ftr + size)
    ensures p == 0 ==> Unchanged(old(h.mem), old(h.blocks), h.mem, h.blocks)
    ensures p != 0 ==>
      && Allocated(old(h.mem), old(h.blocks), h.mem, h.blocks, p, hdr + ftr + size)
      && IsFreshBuffer(old(h.blocks), h.blocks, p, hdr + ftr + size)
  {
    var s := Sum32(hdr + ftr + size);
    if s < size { return 0; }
    if s == 0 { s := s + 1; }
    p := Get(h, s);
  }

  /** The size that raw_calloc computes, in 32 bits. */
  function Product32(hdr: int, ftr: int, nmemb: int, size: int): int {
    (hdr + ftr + nmemb * size) % WORD_LIMIT
  }

  /** The wrap test of raw_calloc. */
  predicate CallocWraps(hdr: int, ftr: int, nmemb: int, size: int) {
    Product32(hdr, ftr, nmemb, size) < nmemb || Product32(hdr, ftr, nmemb, size) < size
  }

  method RawCalloc(h: Heap, hdr: int, ftr: int, nmemb: int, size: int) returns (p: int)
    requires h.Valid() && Extras(hdr, ftr) && 0 <= nmemb < WORD_LIMIT && 0 <= size < WORD_LIMIT
    requires !CallocWraps(hdr, ftr, nmemb, size) ==> Product32(hdr, ftr, nmemb, size) <= MAX_REQUEST
    modifies h
    ensures h.Valid() && |h.mem| == |old(h.mem)| && SamePools(old(h.blocks), h.blocks)
    ensures p == 0 <==>
      CallocWraps(hdr, ftr, nmemb, size) || Exhausted(old(h.blocks), AtLeastOne(Product32(hdr, ftr, nmemb, size)))
    ensures p == 0 ==> Unchanged(old(h.mem), old(h.blocks), h.mem, h.blocks)
    ensures p != 0 ==>
      && Allocated(old(h.mem), old(h.blocks), h.mem, h.blocks, p, Product32(hdr, ftr, nmemb, size))
      && IsLive(h.blocks, p)
      && forall i :: 0 <= i < |Payload(h.mem, h.blocks, p)| ==> Payload(h.mem, h.blocks, p)[i] == 0
  {
    var s := Product32(hdr, ftr, nmemb, size);
    if s < nmemb || s < size { return 0; }
    if s == 0 { s := s + 1; }
    p := GetZeroed(h, s);
  }

  /** The size asked for is the product and the extras exactly when these fit a word. */
  lemma ProductFits(hdr: int, ftr: int, nmemb: int, size: int)
    requires Extras(hdr, ftr) && 0 <= nmemb && 0 <= size
    ensures Product32(hdr, ftr, nmemb, size) == hdr + ftr + nmemb * size <==> hdr + ftr + nmemb * size < WORD_LIMIT
  {
    var x := hdr + ftr + nmemb * size;
    MulNonneg(nmemb, size);
    if x < WORD_LIMIT { DivUnique(x, WORD_LIMIT, 0, x); }
  }

  lemma MulNonneg(a: int, b: int)
    requires 0 <= a && 0 <= b
    ensures 0 <= a * b
  {
  }

  /** The wrap test refuses a product that fits only when a factor is zero and the other is more than the extra
      bytes. */
  lemma FittingCalloc(hdr: int, ftr: int, nmemb: int, size: int)
    requires Extras(hdr, ftr) && 0 <= nmemb && 0 <= size && hdr + ftr + nmemb * size < WORD_LIMIT
    ensures CallocWraps(hdr, ftr, nmemb, size) <==> (nmemb == 0 || size == 0) && (hdr + ftr < nmemb || hdr + ftr < size)
  {
    ProductFits(hdr, ftr, nmemb, size);
    if nmemb > 0 && size > 0 {
      FactorIsLess(nmemb, size);
      FactorIsLess(size, nmemb);
    }
  }

  lemma FactorIsLess(a: int, b: int)
    requires 0 <= a && 0 < b
    ensures a <= a * b && a * b == b * a
  {
    MulNonneg(a, b - 1);
  }

  /** And it lets a product pass that does not fit: five members of a gigabyte get one. */
  lemma WrapIsMissed()
    ensures var n, size := 5, 0x4000_0000;
      !CallocWraps(0, 0, n, size) && Product32(0, 0, n, size) == size < n * size
  {
    DivUnique(5 * 0x4000_0000, WORD_LIMIT, 1, 0x4000_0000);
  }

  /** No members, or members of no size: the wrap test refuses them exactly when they are more than the extra bytes. */
  lemma CallocOfNothing(hdr: int, ftr: int, n: int)
    requires Extras(hdr, ftr) && 0 <= n < WORD_LIMIT
    ensures CallocWraps(hdr, ftr, n, 0) <==> hdr + ftr < n
    ensures CallocWraps(hdr, ftr, 0, n) <==> hdr + ftr < n
    ensures CallocWraps(0, 0, 1, 0)
  {
  }

  method RawRealloc(h: Heap, ptr: int, hdr: int, ftr: int, size: int) returns (p: int)
    requires h.Valid() && Extras(hdr, ftr) && Asks(hdr, ftr, size) && (ptr != 0 ==> IsLive(h.blocks, ptr))
    modifies h
    ensures h.Valid() && |h.mem| == |old(h.mem)| && SamePools(old(h.blocks), h.blocks)
    ensures p == 0 <==> Refused(old(h.blocks), hdr + ftr + size)
    ensures p == 0 ==> Unchanged(old(h.mem), old(h.blocks), h.mem, h.blocks)
    ensures p != 0 && ptr == 0 ==> Allocated(old(h.mem), old(h.blocks), h.mem, h.blocks, p, hdr + ftr + size)
    ensures p != 0 && ptr != 0 ==> Reallocated(old(h.mem), old(h.blocks), h.mem, h.blocks, ptr, p, hdr + ftr + size)
  {
    var s := Sum32(hdr + ftr + size);
    if s < size { return 0; }
    if s == 0 { s := s + 1; }
    p := GetAgain(h, ptr, s);
  }

  /** 1, 2, 4, ... */
  ghost predicate IsPowerOfTwo(x: int)
    decreases x
  {
    x == 1 || (x > 1 && x % 2 == 0 && IsPowerOfTwo(x / 2))
  }

  /** x != 0 and its lowest set bit is x itself; the check of util.h, by halving. */
  method PowerOfTwo(x: int) returns (b: bool)
    requires 0 <= x
    ensures b <==> IsPowerOfTwo(x)
  {
    if x == 0 { return false; }
    var y := x;
    while y % 2 == 0
      invariant 0 < y && (IsPowerOfTwo(x) <==> IsPowerOfTwo(y))
      decreases y
    {
      y := y / 2;
    }
    b := y == 1;
  }

  /** A power of two above 8 is a multiple of 16. */
  lemma {:induction false} PowerIsMultiple(x: int)
    requires IsPowerOfTwo(x) && QUANTUM < x
    ensures x % MIN_BLOCK == 0 && MIN_BLOCK <= x
  {
    if x / 2 > QUANTUM {
      PowerIsMultiple(x / 2);
    } else {
      assert x == 2 || x == 4 || x == 6 || x == 8 || x == 10 || x == 12 || x == 14 || x == 16;
    }
  }

  /** Where the aligned buffer starts inside a block's payload b. */
  function AlignedStart(b: int, hdr: int, alignment: int): int
    requires 0 < alignment
  {
    var p := RoundDown(b + hdr + alignment, alignment) - hdr;
    if p - b < MIN_BLOCK then p + alignment else p
  }

  lemma RemainderIsMultiple(x: int, a: int)
    requires a % QUANTUM == 0 && 0 < a && x % QUANTUM == 0
    ensures (x % a) % QUANTUM == 0
  {
    var q, k := x / a, a / QUANTUM;
    assert x % a == x - q * a && q * a == q * k * QUANTUM;
    DivUnique(x - q * a, QUANTUM, x / QUANTUM - q * k, 0);
  }

  /** The buffer start is aligned past the header, and leaves room for a free block in front of it. */
  lemma AlignedStartFacts(b: int, hdr: int, alignment: int)
    requires alignment % MIN_BLOCK == 0 && MIN_BLOCK <= alignment
    requires b % QUANTUM == 0 && hdr % QUANTUM == 0 && (b + hdr) % alignment != 0
    ensures var p := AlignedStart(b, hdr, alignment);
      && (p + hdr) % alignment == 0 && (p - b) % QUANTUM == 0 && MIN_BLOCK <= p - b <= alignment + QUANTUM
  {
    var x := b + hdr;
    NextMultiple(x, alignment);
    Multiples(b, hdr);
    RemainderIsMultiple(x, alignment);
    GapIsMultiple(alignment, x % alignment);
  }

  /** The multiples that come after x. */
  lemma NextMultiple(x: int, a: int)
    requires 0 < a
    ensures RoundDown(x + a, a) == x - x % a + a
    ensures (x - x % a + a) % a == 0 && (x - x % a + a + a) % a == 0
  {
    ModStep(x, a);
    StillMultiple(x - x % a, a);
    StillMultiple(x - x % a + a, a);
  }

  lemma StillMultiple(y: int, a: int)
    requires 0 < a && y % a == 0
    ensures (y + a) % a == 0
  {
    ModStep(y, a);
  }

  lemma GapIsMultiple(a: int, r: int)
    requires a % MIN_BLOCK == 0 && r % QUANTUM == 0 && 0 < r < a
    ensures (a - r) % QUANTUM == 0 && (a - r + a) % QUANTUM == 0 && QUANTUM <= a - r
    ensures a - r < MIN_BLOCK ==> a - r + a <= a + QUANTUM
  {
  }

  /** A live buffer p of at least n cells whose payload, hdr cells in, is aligned. */
  ghost predicate AlignedAt(p: int, hdr: int, alignment: int)
    requires 0 < alignment
  {
    (p + hdr) % alignment == 0
  }

  /** An aligned request of n bytes wraps, or no free block can serve it. */
  ghost predicate NoAligned(bs: seq<Block>, n: int, alignment: int)
    requires 0 <= n && 0 <= alignment
  {
    if alignment <= QUANTUM then Refused(bs, n) else Refused(bs, n + alignment + MIN_BLOCK)
  }

  /** What BGET demands of an aligned request that passes the tests. */
  ghost predicate AsksAligned(hdr: int, ftr: int, alignment: int, size: int) {
    && 0 <= alignment < WORD_LIMIT && 0 <= size < WORD_LIMIT
    && (IsPowerOfTwo(alignment) ==>
          if alignment <= QUANTUM then Asks(hdr, ftr, size) else AsksBeyond(hdr, ftr, alignment, size))
  }

  ghost predicate AsksBeyond(hdr: int, ftr: int, alignment: int, size: int) {
    var s := Sum32(hdr + ftr + alignment + size + MIN_BLOCK);
    s >= alignment && s >= size ==> s <= MAX_REQUEST
  }

  method RawMemalign(h: Heap, hdr: int, ftr: int, alignment: int, size: int) returns (p: int)
    requires h.Valid() && Extras(hdr, ftr) && AsksAligned(hdr, ftr, alignment, size)
    modifies h
    ensures h.Valid() && |h.mem| == |old(h.mem)| && SamePools(old(h.blocks), h.blocks)
    ensures p == 0 <==> !IsPowerOfTwo(alignment) || NoAligned(old(h.blocks), hdr + ftr + size, alignment)
    ensures p == 0 ==> Unchanged(old(h.mem), old(h.blocks), h.mem, h.blocks)
    ensures p != 0 ==>
      && Allocated(old(h.mem), old(h.blocks), h.mem, h.blocks, p, hdr + ftr + size)
      && AlignedAt(p, hdr, alignment)
  {
    var power := PowerOfTwo(alignment);
    if !power { return 0; }
    if alignment <= QUANTUM {
      p := RawMalloc(h, hdr, ftr, size);
      if p != 0 { SmallAlignment(old(h.blocks), h.blocks, p, hdr, ftr, size, alignment); }
    } else {
      PowerIsMultiple(alignment);
      PowerFits(alignment);
      p := AlignedGet(h, hdr, ftr, alignment, size);
    }
  }

  function Pow2(k: nat): (r: int)
    ensures r >= 1
  {
    if k == 0 then 1 else 2 * Pow2(k - 1)
  }

  lemma {:induction false} PowersOfTwo(x: int)
    ensures IsPowerOfTwo(x) <==> exists k: nat :: x == Pow2(k)
    decreases if x < 0 then 0 else x
  {
    if IsPowerOfTwo(x) {
      if x == 1 {
        assert x == Pow2(0);
      } else {
        PowersOfTwo(x / 2);
        var k: nat :| x / 2 == Pow2(k);
        assert x == Pow2(k + 1);
      }
    }
    if k: nat :| x == Pow2(k) { PowerIsOne(k); }
  }

  lemma {:induction false} PowerIsOne(k: nat)
    ensures IsPowerOfTwo(Pow2(k))
  {
    if k > 0 {
      PowerIsOne(k - 1);
      assert Pow2(k) / 2 == Pow2(k - 1) && Pow2(k) % 2 == 0;
    }
  }

  /** When memalign finds nothing: no free block holds the request and a header of eight bytes, with the alignment and
      sixteen bytes on top where the alignment is more than eight; an empty request counts as one byte. */
  lemma RefusalMeans(bs: seq<Block>, n: int, alignment: int)
    requires 0 <= n && 0 <= alignment
    ensures
      var all := if alignment <= 8 then n else n + alignment + 16;
      NoAligned(bs, n, alignment) <==>
        all >= 0x1_0000_0000
        || forall i :: 0 <= i < |bs| && bs[i].kind.Free? ==> bs[i].size < 8 + if all == 0 then 1 else all
  {
  }

  /** Between two powers of two there is none. */
  lemma {:induction false} PowerBelow(x: int, k: nat)
    requires IsPowerOfTwo(x) && x < Pow2(k + 1)
    ensures x <= Pow2(k)
  {
    if x > 1 && k > 0 { PowerBelow(x / 2, k - 1); }
  }

  lemma PowerFits(x: int)
    requires IsPowerOfTwo(x) && x < WORD_LIMIT
    ensures x <= 0x8000_0000
  {
    assert Pow2(4) == 0x10 && Pow2(8) == 0x100 && Pow2(12) == 0x1000 && Pow2(16) == 0x1_0000;
    assert Pow2(20) == 0x10_0000 && Pow2(24) == 0x100_0000 && Pow2(28) == 0x1000_0000;
    assert Pow2(31) == 0x8000_0000 && Pow2(32) == WORD_LIMIT;
    PowerBelow(x, 31);
  }

  /** The case of an alignment beyond what every buffer has. */
  method AlignedGet(h: Heap, hdr: int, ftr: int, alignment: int, size: int) returns (p: int)
    requires h.Valid() && Extras(hdr, ftr) && 0 <= alignment <= 0x8000_0000 && 0 <= size < WORD_LIMIT
    requires AsksBeyond(hdr, ftr, alignment, size) && alignment % MIN_BLOCK == 0 && MIN_BLOCK <= alignment
    modifies h
    ensures h.Valid() && |h.mem| == |old(h.mem)| && SamePools(old(h.blocks), h.blocks)
    ensures p == 0 <==> NoAligned(old(h.blocks), hdr + ftr + size, alignment)
    ensures p == 0 ==> Unchanged(old(h.mem), old(h.blocks), h.mem, h.blocks)
    ensures p != 0 ==>
      && Allocated(old(h.mem), old(h.blocks), h.mem, h.blocks, p, hdr + ftr + size)
      && AlignedAt(p, hdr, alignment)
  {
    var s := Sum32(hdr + ftr + alignment + size + MIN_BLOCK);
    if s < alignment || s < size { return 0; }
    ghost var m0, bs := h.mem, h.blocks;
    var b := Get(h, s);
    if b == 0 { return 0; }
    p := TrimToAlignment(h, b, hdr, alignment, hdr + ftr + size, m0, bs);
  }

  /** Every buffer is aligned to the quantum. */
  lemma SmallAlignment(bs: seq<Block>, cs: seq<Block>, p: int, hdr: int, ftr: int, size: int, alignment: int)
    requires IsFreshBuffer(bs, cs, p, hdr + ftr + size) && Extras(hdr, ftr)
    requires IsPowerOfTwo(alignment) && alignment <= QUANTUM
    ensures AlignedAt(p, hdr, alignment)
  {
    assert alignment == 1 || alignment == 2 || alignment == 4 || alignment == 8 by {
      assert alignment != 7 && alignment != 6 && alignment != 5 && alignment != 3;
    }
    Multiples(p, hdr);
    SmallDivisors(p + hdr, alignment);
  }

  lemma SmallDivisors(x: int, a: int)
    requires x % QUANTUM == 0 && (a == 1 || a == 2 || a == 4 || a == 8)
    ensures x % a == 0
  {
    DivUnique(x, a, x / QUANTUM * (QUANTUM / a), 0);
  }

  /** Give back what lies in front of the aligned start and behind what is needed. */
  method TrimToAlignment(h: Heap, buf: int, hdr: int, alignment: int, n: int, ghost m0: Memory, ghost bs: seq<Block>)
    returns (p: int)
    requires h.Valid() && Shape(bs, |h.mem|) && |m0| == |h.mem|
    requires 0 <= n && 0 <= hdr && hdr % QUANTUM == 0 && alignment % MIN_BLOCK == 0 && MIN_BLOCK <= alignment
    requires IsFreshBuffer(bs, h.blocks, buf, n + alignment + MIN_BLOCK)
    requires KeepsLive(m0, h.mem, bs, h.blocks, {})
    requires Starts(Used, h.blocks) == Starts(Used, bs) + {buf - BHEAD}
    modifies h
    ensures h.Valid() && |h.mem| == |old(h.mem)| && 0 < p && SamePools(old(h.blocks), h.blocks)
    ensures Allocated(m0, bs, h.mem, h.blocks, p, n) && AlignedAt(p, hdr, alignment)
  {
    p := buf;
    if (buf + hdr) % alignment != 0 {
      AlignedStartFacts(buf, hdr, alignment);
      p := AlignedStart(buf, hdr, alignment);
      TrimFront(h, buf, p, m0, bs, alignment + MIN_BLOCK + n);
    }
    assert AlignedAt(p, hdr, alignment);
    TrimBack(h, p, n, m0, bs);
  }

  /** The blocks in use before an allocation start nowhere inside the block it got. */
  lemma FreshInside(m0: Memory, m: Memory, head: int, bs: seq<Block>, cs: seq<Block>, fl: seq<int>, k: int, a: int)
    requires IsHeap(m, head, cs, fl) && KeepsLive(m0, m, bs, cs, {}) && 0 <= k < |cs| && cs[k].at !in Starts(Used, bs)
    requires cs[k].at <= a < cs[k].Limit()
    ensures a !in Starts(Used, bs)
  {
    forall q | 0 <= q < |bs| && bs[q].kind.Used? ensures bs[q].at != a {
      var r :| 0 <= r < |cs| && cs[r] == bs[q];
      assert bs[q].at in Starts(Used, bs) && Sized(cs[r], |m|);
      assert if r < k then ApartAt(cs, r, k) else r == k || ApartAt(cs, k, r);
    }
  }

  /** Block q is the one live buffer p. */
  lemma FreshAt(bs: seq<Block>, cs: seq<Block>, top: int, q: int, p: int, n: int)
    requires Shape(cs, top) && 0 <= q < |cs| && cs[q].kind.Used? && cs[q].at + BHEAD == p && n + BHEAD <= cs[q].size
    requires !IsLive(bs, p)
    ensures IsFreshBuffer(bs, cs, p, n)
  {
    assert Sized(cs[q], top) && cs[q].at in Starts(Used, cs);
    forall i | 0 <= i < |cs| && cs[i].at + BHEAD == p ensures n + BHEAD <= cs[i].size {
      SameBlock(cs, top, i, q);
    }
  }

  method TrimFront(h: Heap, buf: int, p: int, ghost m0: Memory, ghost bs: seq<Block>, ghost n: int)
    requires h.Valid() && |m0| == |h.mem| && (p - buf) % QUANTUM == 0 && MIN_BLOCK <= p - buf <= n - QUANTUM
    requires IsFreshBuffer(bs, h.blocks, buf, n)
    requires KeepsLive(m0, h.mem, bs, h.blocks, {})
    requires Starts(Used, h.blocks) == Starts(Used, bs) + {buf - BHEAD}
    modifies h
    ensures h.Valid() && |h.mem| == |old(h.mem)| && SamePools(old(h.blocks), h.blocks)
    ensures IsFreshBuffer(bs, h.blocks, p, n - (p - buf))
    ensures KeepsLive(m0, h.mem, bs, h.blocks, {})
    ensures Starts(Used, h.blocks) == Starts(Used, bs) + {p - BHEAD}
  {
    ghost var m1, cs, fl := h.mem, h.blocks, h.free;
    ghost var k := FreshIndex(bs, cs, buf, n);
    HasNext(m1, h.head, cs, fl, k);
    h.BrelBefore(buf, p, k);
    FrontCutPools(cs, h.blocks, |m1|, k, p - buf);
    TrimmedFront(m0, m1, h.mem, h.head, bs, cs, h.blocks, fl, h.free, k, buf, p, n);
  }

  lemma FreshIndex(bs: seq<Block>, cs: seq<Block>, buf: int, n: int) returns (k: int)
    requires IsFreshBuffer(bs, cs, buf, n)
    ensures 0 <= k < |cs| && cs[k].kind.Used? && cs[k].at + BHEAD == buf && n + BHEAD <= cs[k].size
  {
    k := IndexOf(cs, buf);
    assert cs[k].at + BHEAD == buf;
  }

  /** What cutting the front off a fresh buffer leaves is a fresh buffer. */
  lemma TrimmedFront(m0: Memory, m1: Memory, m2: Memory, head: int, bs: seq<Block>, cs: seq<Block>, ds: seq<Block>,
                     fl: seq<int>, fl': seq<int>, k: int, buf: int, p: int, n: int)
    requires IsHeap(m1, head, cs, fl) && IsHeap(m2, head, ds, fl') && |m0| == |m1| == |m2|
    requires 0 <= k < |cs| && cs[k].at + BHEAD == buf && n + BHEAD <= cs[k].size && Trimmable(cs[k], p - buf)
    requires IsFreshBuffer(bs, cs, buf, n)
    requires KeepsLive(m0, m1, bs, cs, {}) && KeepsLive(m1, m2, cs, ds, {buf - BHEAD})
    requires Starts(Used, cs) == Starts(Used, bs) + {buf - BHEAD}
    requires ds == Recut(cs, RunStart(cs, k), k + 1, FrontCut(cs, k, p - buf))
    ensures IsFreshBuffer(bs, ds, p, n - (p - buf))
    ensures KeepsLive(m0, m2, bs, ds, {})
    ensures Starts(Used, ds) == Starts(Used, bs) + {p - BHEAD}
  {
    KeepsLiveTwice(m0, m1, m2, bs, cs, ds, buf - BHEAD);
    TrimmedFrontIsFresh(m0, m1, head, bs, cs, ds, fl, k, buf, p, n);
  }

  lemma TrimmedFrontIsFresh(m0: Memory, m1: Memory, head: int, bs: seq<Block>, cs: seq<Block>, ds: seq<Block>,
                            fl: seq<int>, k: int, buf: int, p: int, n: int)
    requires IsHeap(m1, head, cs, fl) && Shape(ds, |m1|)
    requires 0 <= k < |cs| && cs[k].at + BHEAD == buf && n + BHEAD <= cs[k].size && Trimmable(cs[k], p - buf)
    requires buf - BHEAD !in Starts(Used, bs)
    requires KeepsLive(m0, m1, bs, cs, {})
    requires Starts(Used, cs) == Starts(Used, bs) + {buf - BHEAD}
    requires ds == Recut(cs, RunStart(cs, k), k + 1, FrontCut(cs, k, p - buf))
    ensures IsFreshBuffer(bs, ds, p, n - (p - buf))
    ensures Starts(Used, ds) == Starts(Used, bs) + {p - BHEAD}
  {
    HasNext(m1, head, cs, fl, k);
    FreshInside(m0, m1, head, bs, cs, fl, k, p - BHEAD);
    FrontCutStarts(cs, |m1|, k, p - buf);
    RecutAt(cs, RunStart(cs, k), k + 1, FrontCut(cs, k, p - buf), RunStart(cs, k) + 1);
    FreshAt(bs, ds, |m1|, RunStart(cs, k) + 1, p, n - (p - buf));
  }

  method TrimBack(h: Heap, p: int, n: int, ghost m0: Memory, ghost bs: seq<Block>)
    requires h.Valid() && Shape(bs, |h.mem|) && |m0| == |h.mem| && 0 <= n
    requires IsFreshBuffer(bs, h.blocks, p, n + QUANTUM)
    requires KeepsLive(m0, h.mem, bs, h.blocks, {})
    requires Starts(Used, h.blocks) == Starts(Used, bs) + {p - BHEAD}
    modifies h
    ensures h.Valid() && |h.mem| == |old(h.mem)| && SamePools(old(h.blocks), h.blocks)
    ensures Allocated(m0, bs, h.mem, h.blocks, p, n)
  {
    ghost var m1, cs := h.mem, h.blocks;
    ghost var k := FreshIndex(bs, cs, p, n + QUANTUM);
    HasNext(m1, h.head, cs, h.free, k);
    TrimRoom(cs, |m1|, k, n);
    h.BrelAfter(p, n, k);
    TrimmedBack(m0, m1, h.mem, h.head, bs, cs, h.blocks, h.free, k, p, n);
  }

  /** There is room for the request, and what is left over behind it can be cut off if it is a block. */
  lemma TrimRoom(cs: seq<Block>, top: int, k: int, n: int)
    requires Shape(cs, top) && 0 <= k < |cs| - 1 && cs[k].kind.Used? && 0 <= n && n + QUANTUM + BHEAD <= cs[k].size
    ensures Need(n) <= cs[k].size && SamePools(cs, AfterTrim(cs, k, Need(n)))
  {
    assert Sized(cs[k], top);
    AfterTrimPools(cs, top, k, Need(n));
  }

  lemma TrimmedBack(m0: Memory, m1: Memory, m2: Memory, head: int, bs: seq<Block>, cs: seq<Block>, ds: seq<Block>,
                    fl: seq<int>, k: int, p: int, n: int)
    requires |m0| == |m1| == |m2| && Shape(bs, |m0|) && Shape(cs, |m1|) && IsHeap(m2, head, ds, fl)
    requires 0 <= k < |cs| - 1 && cs[k].kind.Used? && cs[k].at + BHEAD == p && 0 <= n && Need(n) <= cs[k].size
    requires IsFreshBuffer(bs, cs, p, n + QUANTUM) && ds == AfterTrim(cs, k, Need(n))
    requires KeepsLive(m0, m1, bs, cs, {}) && KeepsLive(m1, m2, cs, ds, {p - BHEAD})
    requires Starts(Used, cs) == Starts(Used, bs) + {p - BHEAD}
    ensures Allocated(m0, bs, m2, ds, p, n)
  {
    KeepsLiveTwice(m0, m1, m2, bs, cs, ds, p - BHEAD);
    AfterTrimIsFresh(bs, cs, ds, |m1|, k, p, n);
    AllocatedStep(m0, m2, bs, ds, p, n);
  }

  lemma AfterTrimIsFresh(bs: seq<Block>, cs: seq<Block>, ds: seq<Block>, top: int, k: int, p: int, n: int)
    requires Shape(cs, top) && Shape(ds, top) && 0 <= k < |cs| - 1 && cs[k].kind.Used? && cs[k].at + BHEAD == p
    requires 0 <= n && Need(n) <= cs[k].size && !IsLive(bs, p) && ds == AfterTrim(cs, k, Need(n))
    ensures IsFreshBuffer(bs, ds, p, n) && IsSnug(ds, p, n)
    ensures Starts(Used, ds) == Starts(Used, cs)
  {
    if cs[k].size - Need(n) >= MIN_BLOCK {
      BackCutStarts(cs, top, k, Need(n));
      RecutAt(cs, k, RunEnd(cs, k), BackCut(cs, k, Need(n)), k);
    }
    FreshAt(bs, ds, top, k, p, n);
    forall i | 0 <= i < |ds| && ds[i].at + BHEAD == p ensures ds[i].size <= BHEAD + Ample(n) {
      SameBlock(ds, top, i, k);
    }
  }
}
