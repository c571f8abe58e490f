/**
 The pool table of bget_malloc.c: malloc_add_pool, the iterator over all buffers and
 malloc_buffer_is_within_alloced.  The table itself lives in the heap, in a buffer that
 malloc_add_pool grows with realloc.
 */
module Pools {
  import opened Arith
  import opened HeapLayout
  import opened HeapSteps
  import opened Bget
  import opened HeapBases
  import opened Malloc
  import opened Seal

  const ENTRY := 8     // sizeof(struct malloc_pool): buf and len

  /** The table's entries name the pools; every entry is a buf word and a len word. */
  ghost predicate Entries(payload: seq<int>, bases: seq<int>, lens: seq<int>, count: int) {
    && 0 <= count <= |bases| && count <= |lens| && ENTRY * count <= |payload|
    && forall n :: 0 <= n < count ==> payload[ENTRY * n] == bases[n] && payload[ENTRY * n + 4] == lens[n]
  }

  /** The heap holds a table of its pools in the buffer at address table. */
  ghost predicate Tabled(m: Memory, bs: seq<Block>, table: int, count: int) {
    TableHolds(m, bs, table, count) == true
  }

  ghost predicate TableHolds(m: Memory, bs: seq<Block>, table: int, count: int) {
    && count == |Bases(bs)| == |Lengths(bs)|
    && (count == 0 <==> table == 0)
    && (count > 0 ==> IsLive(bs, table) && Entries(Payload(m, bs, table), Bases(bs), Lengths(bs), count))
  }

  lemma TableEntry(m: Memory, bs: seq<Block>, table: int, count: int, n: int)
    requires Tabled(m, bs, table, count) && 0 <= n < count
    ensures n < |Bases(bs)| == |Lengths(bs)| && Word(m, table + ENTRY * n) == Bases(bs)[n]
    ensures Word(m, table + ENTRY * n + 4) == Lengths(bs)[n]
  {
    assert Payload(m, bs, table)[ENTRY * n] == Bases(bs)[n] && Payload(m, bs, table)[ENTRY * n + 4] == Lengths(bs)[n];
  }

  /** The flat position where pool n starts. */
  ghost predicate StartsPool(bs: seq<Block>, n: int, q: int) {
    0 <= q < |bs| && bs[q].at == bs[q].pool && |Bases(bs[..q])| == n
  }

  lemma {:induction false} NextPool(bs: seq<Block>, top: int, q: int)
    requires Shape(bs, top) && 0 <= q < |bs| && bs[q].kind.End?
    ensures q + 1 < |bs| ==> StartsPool(bs, |Bases(bs[..q + 1])|, q + 1)
    ensures q + 1 == |bs| ==> |Bases(bs[..q + 1])| == |Bases(bs)|
  {
    if q + 1 < |bs| { assert LinkedAt(bs, q + 1); }
    if q + 1 == |bs| { assert bs[..q + 1] == bs; }
  }

  lemma BaseAt(bs: seq<Block>, n: int, q: int)
    requires StartsPool(bs, n, q)
    ensures n < |Bases(bs)| && Bases(bs)[n] == bs[q].at && |Bases(bs[..q + 1])| == n + 1
  {
    assert bs == bs[..q + 1] + bs[q + 1..] && bs[..q + 1][..q] == bs[..q];
    BasesSplit(bs[..q + 1], bs[q + 1..]);
  }

  /** An inner block starts no pool. */
  lemma SameCount(bs: seq<Block>, top: int, q: int)
    requires Shape(bs, top) && 0 <= q < |bs| - 1 && !bs[q].kind.End?
    ensures |Bases(bs[..q + 2])| == |Bases(bs[..q + 1])|
  {
    assert LinkedAt(bs, q + 1) && Sized(bs[q], top);
    assert bs[..q + 2][..q + 1] == bs[..q + 1];
  }

  /** The iterator stands at block q. */
  ghost predicate Standing(bs: seq<Block>, poolIdx: int, nextBuf: int, q: int) {
    StandsAt(bs, poolIdx, nextBuf, q) == true
  }

  ghost predicate StandsAt(bs: seq<Block>, poolIdx: int, nextBuf: int, q: int) {
    && 0 <= q < |bs| && 0 <= poolIdx && bs[q].at == nextBuf
    && forall key: Key :: Opens(key) && key == OfPools ==> |Bases(bs[..q + 1])| == poolIdx + 1
  }

  ghost predicate NoneUsed(bs: seq<Block>, q: int, r: int)
    requires 0 <= q && r <= |bs|
  {
    forall i :: q <= i < r ==> !bs[i].kind.Used?
  }

  /** What the iterator reads at block q. */
  lemma StandingFacts(m: Memory, head: int, bs: seq<Block>, fl: seq<int>, poolIdx: int, nextBuf: int, q: int)
    requires IsHeap(m, head, bs, fl) && Standing(bs, poolIdx, nextBuf, q)
    ensures Word(m, nextBuf + 4) == SizeWord(bs[q]) && (SizeWord(bs[q]) == ESENT <==> bs[q].kind.End?)
    ensures bs[q].kind.Used? <==> ESENT < SizeWord(bs[q]) < 0
    ensures !bs[q].kind.End? ==> Standing(bs, poolIdx, bs[q].Limit(), q + 1)
    ensures bs[q].kind.End? ==> q + 1 <= |bs| && (poolIdx + 1 >= |Bases(bs)| <==> q + 1 == |bs|)
    ensures bs[q].kind.End? && q + 1 < |bs| ==> Standing(bs, poolIdx + 1, Bases(bs)[poolIdx + 1], q + 1)
  {
    assert HeaderAt(m, bs, q) && Sized(bs[q], |m|);
    if bs[q].kind.End? {
      StandingAtEnd(bs, |m|, poolIdx, nextBuf, q);
    } else {
      HasNext(m, head, bs, fl, q);
      StandingInside(bs, |m|, poolIdx, nextBuf, q);
    }
  }

  lemma StandingAtEnd(bs: seq<Block>, top: int, poolIdx: int, nextBuf: int, q: int)
    requires Shape(bs, top) && Standing(bs, poolIdx, nextBuf, q) && bs[q].kind.End?
    ensures q + 1 <= |bs| && (poolIdx + 1 >= |Bases(bs)| <==> q + 1 == |bs|)
    ensures q + 1 < |bs| ==> Standing(bs, poolIdx + 1, Bases(bs)[poolIdx + 1], q + 1)
  {
    assert Opens(OfPools);
    NextPool(bs, top, q);
    if q + 1 < |bs| { BaseAt(bs, poolIdx + 1, q + 1); }
  }

  lemma StandingInside(bs: seq<Block>, top: int, poolIdx: int, nextBuf: int, q: int)
    requires Shape(bs, top) && Standing(bs, poolIdx, nextBuf, q) && !bs[q].kind.End? && q + 1 < |bs|
    ensures Standing(bs, poolIdx, bs[q].Limit(), q + 1)
  {
    assert Opens(OfPools);
    assert LinkedAt(bs, q + 1);
    SameCount(bs, top, q);
  }

  /** From block first on to block q no buffer has been passed, and the iterator stands at q. */
  ghost predicate Travelled(bs: seq<Block>, first: int, poolIdx: int, nextBuf: int, q: int) {
    TravelledTo(bs, first, poolIdx, nextBuf, q) == true
  }

  ghost predicate TravelledTo(bs: seq<Block>, first: int, poolIdx: int, nextBuf: int, q: int) {
    Standing(bs, poolIdx, nextBuf, q) && 0 <= first <= q && NoneUsed(bs, first, q)
  }

  lemma Travels(bs: seq<Block>, first: int, poolIdx: int, nextBuf: int, q: int, poolIdx': int, nextBuf': int)
    requires Travelled(bs, first, poolIdx, nextBuf, q) && !bs[q].kind.Used? && Standing(bs, poolIdx', nextBuf', q + 1)
    ensures Travelled(bs, first, poolIdx', nextBuf', q + 1)
  {
  }

  /** One step of the iterator: behind the last pool, into the next one, past a free block, or at a buffer. */
  lemma StepFacts(m: Memory, head: int, bs: seq<Block>, fl: seq<int>, table: int, count: int, first: int, poolIdx: int,
                  nextBuf: int, q: int)
    requires IsHeap(m, head, bs, fl) && Tabled(m, bs, table, count) && Travelled(bs, first, poolIdx, nextBuf, q)
    ensures q < |bs| && 0 <= first <= q && 0 <= poolIdx
    ensures var size := Word(m, nextBuf + 4);
      if size == ESENT then
        if poolIdx + 1 >= count then NoneUsed(bs, first, |bs|)
        else Travelled(bs, first, poolIdx + 1, Word(m, table + ENTRY * (poolIdx + 1)), q + 1)
      else if size < 0 then
        && AtBuffer(bs, q + 1, nextBuf + BHEAD) && NoneUsed(bs, first, q)
        && Standing(bs, poolIdx, nextBuf + -size, q + 1)
      else Travelled(bs, first, poolIdx, nextBuf + size, q + 1)
  {
    StandingFacts(m, head, bs, fl, poolIdx, nextBuf, q);
    if bs[q].kind.End? {
      if poolIdx + 1 < count {
        TableEntry(m, bs, table, count, poolIdx + 1);
        Travels(bs, first, poolIdx, nextBuf, q, poolIdx + 1, Bases(bs)[poolIdx + 1]);
      }
    } else if bs[q].kind.Free? {
      Travels(bs, first, poolIdx, nextBuf, q, poolIdx, bs[q].Limit());
    }
  }

  ghost predicate NoneHolds(bs: seq<Block>, n: int, buf: int, end: int) {
    forall i :: 0 <= i < n && i < |bs| && bs[i].kind.Used? ==> !(bs[i].at + BHEAD <= buf && end <= bs[i].Limit())
  }

  /** The iterator has just returned the buffer of block pos - 1. */
  ghost predicate AtBuffer(bs: seq<Block>, pos: int, b: int) {
    0 < pos <= |bs| && bs[pos - 1].kind.Used? && b == bs[pos - 1].at + BHEAD
  }

  class PoolIterator {
    var poolIdx: nat
    var nextBuf: int
    ghost var pos: int

    /** bpool_foreach_iterator_init */
    constructor (h: Heap, table: int, count: int)
      requires h.Valid() && Tabled(h.mem, h.blocks, table, count) && 0 < count
      ensures Standing(h.blocks, poolIdx, nextBuf, pos) && pos == 0
    {
      FirstPool(h.mem, h.blocks);
      TableEntry(h.mem, h.blocks, table, count, 0);
      poolIdx := 0;
      nextBuf := Word(h.mem, table + ENTRY * 0);
      pos := 0;
    }

    /** bpool_foreach: advance to the next live buffer. */
    method Next(h: Heap, table: int, count: int) returns (found: bool, buf: int)
      requires h.Valid() && Tabled(h.mem, h.blocks, table, count) && Standing(h.blocks, poolIdx, nextBuf, pos)
      modifies this
      ensures found ==>
        && old(pos) < pos && AtBuffer(h.blocks, pos, buf)
        && NoneUsed(h.blocks, old(pos), pos - 1)
        && Standing(h.blocks, poolIdx, nextBuf, pos)
      ensures !found ==> NoneUsed(h.blocks, old(pos), |h.blocks|)
    {
      buf := 0;
      while true
        invariant Travelled(h.blocks, old(pos), poolIdx, nextBuf, pos)
        decreases |h.blocks| - pos
      {
        StepFacts(h.mem, h.head, h.blocks, h.free, table, count, old(pos), poolIdx, nextBuf, pos);
        var size := Word(h.mem, nextBuf + 4);
        if size == ESENT {
          if poolIdx + 1 >= count { return false, buf; }
          poolIdx := poolIdx + 1;
          nextBuf := Word(h.mem, table + ENTRY * poolIdx);
        } else if size < 0 {
          buf := nextBuf + BHEAD;
          nextBuf := nextBuf + -size;
          pos := pos + 1;
          return true, buf;
        } else {
          nextBuf := nextBuf + size;
        }
        pos := pos + 1;
      }
    }
  }

  lemma FirstPool(m: Memory, bs: seq<Block>)
    requires Shape(bs, |m|) && 0 < |Bases(bs)|
    ensures |bs| > 0 && Standing(bs, 0, bs[0].at, 0) && Bases(bs)[0] == bs[0].at
  {
    assert bs[..0] == [] && bs[..1][..0] == [];
    BaseAt(bs, 0, 0);
  }

  /** [buf, buf + len) lies inside the payload of a live buffer. */
  ghost predicate WithinLive(bs: seq<Block>, buf: int, len: int) {
    exists i :: 0 <= i < |bs| && bs[i].kind.Used? && bs[i].at + BHEAD <= buf && buf + len <= bs[i].Limit()
  }

  /** malloc_buffer_is_within_alloced: exactly the ranges inside live buffers, and none that wraps. */
  method IsWithinAlloced(h: Heap, table: int, count: int, buf: int, len: int) returns (ret: bool)
    requires h.Valid() && Tabled(h.mem, h.blocks, table, count) && 0 < count
    requires 0 <= buf < WORD_LIMIT && 0 <= len < WORD_LIMIT
    ensures ret <==> buf + len < WORD_LIMIT && WithinLive(h.blocks, buf, len)
  {
    var end := Sum32(buf + len);
    if buf > end { return false; }
    var itr := new PoolIterator(h, table, count);
    var found, b := itr.Next(h, table, count);
    while found
      invariant found ==> Standing(h.blocks, itr.poolIdx, itr.nextBuf, itr.pos) && AtBuffer(h.blocks, itr.pos, b)
      invariant NoneHolds(h.blocks, if found then itr.pos - 1 else |h.blocks|, buf, end)
      decreases if found then |h.blocks| - itr.pos + 1 else 0
    {
      BufferSize(h.mem, h.head, h.blocks, h.free, itr.pos, b);
      var size := -Word(h.mem, b - BHEAD + 4) - BHEAD;
      if buf >= b && end <= b + size { return true; }
      found, b := itr.Next(h, table, count);
    }
    return false;
  }

  lemma BufferSize(m: Memory, head: int, bs: seq<Block>, fl: seq<int>, pos: int, b: int)
    requires IsHeap(m, head, bs, fl) && AtBuffer(bs, pos, b)
    ensures b - Word(m, b - BHEAD + 4) - BHEAD == bs[pos - 1].Limit()
  {
    assert HeaderAt(m, bs, pos - 1);
  }

  // ---------------------------------------------------------------- malloc_add_pool

  /** Writing entry n of a table of at least n + 1 entries. */
  method WriteEntry(h: Heap, table: int, n: int, buf: int, len: int)
    requires h.Valid() && IsLive(h.blocks, table) && 0 <= n && ENTRY * (n + 1) <= |Payload(h.mem, h.blocks, table)|
    modifies h`mem
    ensures h.Valid() && |h.mem| == |old(h.mem)|
    ensures KeepsLive(old(h.mem), h.mem, h.blocks, h.blocks, {table - BHEAD})
    ensures Word(h.mem, table + ENTRY * n) == buf && Word(h.mem, table + ENTRY * n + 4) == len
    ensures forall c :: !(table + ENTRY * n <= c < table + ENTRY * n + 8) ==> Word(h.mem, c) == Word(old(h.mem), c)
  {
    ghost var m0, k := h.mem, IndexOf(h.blocks, table);
    HasNext(h.mem, h.head, h.blocks, h.free, k);
    h.Store(table + ENTRY * n, buf);
    h.Store(table + ENTRY * n + 4, len);
    PayloadWrite(m0, h.mem, h.head, h.blocks, h.free, k);
  }

  lemma EntryWritten(m: Memory, m': Memory, bs: seq<Block>, table: int, bases: seq<int>, lens: seq<int>, n: int)
    requires IsLive(bs, table) && Entries(Payload(m, bs, table), bases, lens, n) && n < |bases| && n < |lens|
    requires ENTRY * (n + 1) <= |Payload(m, bs, table)|
    requires Word(m', table + ENTRY * n) == bases[n] && Word(m', table + ENTRY * n + 4) == lens[n]
    requires forall c :: !(table + ENTRY * n <= c < table + ENTRY * n + 8) ==> Word(m', c) == Word(m, c)
    ensures Entries(Payload(m', bs, table), bases, lens, n + 1)
  {
    var p, p' := Payload(m, bs, table), Payload(m', bs, table);
    forall i | 0 <= i < n + 1 ensures p'[ENTRY * i] == bases[i] && p'[ENTRY * i + 4] == lens[i] {
      if i < n { assert p[ENTRY * i] == bases[i] && p[ENTRY * i + 4] == lens[i]; }
    }
  }

  /** Growing the table keeps its entries. */
  lemma EntriesMoved(s: seq<int>, t: seq<int>, bases: seq<int>, lens: seq<int>, n: int)
    requires Entries(s, bases, lens, n) && ENTRY * (n + 1) <= |t| && SamePrefix(s, t, ENTRY * (n + 1))
    ensures Entries(t, bases, lens, n)
  {
    forall i | 0 <= i < n ensures t[ENTRY * i] == bases[i] && t[ENTRY * i + 4] == lens[i] {
      assert s[ENTRY * i] == bases[i] && s[ENTRY * i + 4] == lens[i];
    }
  }

  /** The pool that malloc_add_pool carves out of [buf, buf + len). */
  function PoolStart(buf: int): int { RoundUp(buf, QUANTUM) }
  function PoolLength(buf: int, len: int): int { RoundDown(buf + len, QUANTUM) - PoolStart(buf) }

  /** Add a pool and enter it in the table; ok is false where the source asserts that realloc succeeds. */
  method AddPool(h: Heap, table: int, count: int, buf: int, len: int) returns (ok: bool, table': int, count': int)
    requires h.Valid() && Tabled(h.mem, h.blocks, table, count)
    requires PoolLength(buf, len) >= MIN_BLOCK + BHEAD ==>
      PoolFits(h.mem, h.head, h.blocks, PoolStart(buf), PoolLength(buf, len))
    requires ENTRY * (count + 1) <= MAX_REQUEST
    modifies h
    ensures h.Valid() && |h.mem| == |old(h.mem)|
    ensures PoolLength(buf, len) < MIN_BLOCK + BHEAD ==>
      ok && h.mem == old(h.mem) && h.blocks == old(h.blocks) && table' == table && count' == count
    ensures PoolLength(buf, len) >= MIN_BLOCK + BHEAD ==>
      && Bases(h.blocks) == Bases(old(h.blocks)) + [PoolStart(buf)]
      && Lengths(h.blocks) == Lengths(old(h.blocks)) + [PoolLength(buf, len)]
    ensures KeptBut(old(h.mem), old(h.blocks), h.mem, h.blocks, table)
    ensures ok ==> Tabled(h.mem, h.blocks, table', count')
  {
    var start := PoolStart(buf);
    var length := PoolLength(buf, len);
    if length < MIN_BLOCK + BHEAD { return true, table, count; }
    ghost var m0, bs := h.mem, h.blocks;
    assert length / QUANTUM * QUANTUM == length;
    h.Bpool(start, length);
    PoolBases(bs, start, length);
    ok, table' := GrowTable(h, table, count, start, length, m0, bs);
    count' := count + 1;
  }

  /** Every live buffer but the table keeps its place and contents. */
  ghost predicate KeptBut(m: Memory, bs: seq<Block>, m': Memory, bs': seq<Block>, table: int) {
    OthersKept(m, bs, m', bs', table) == true
  }

  ghost predicate OthersKept(m: Memory, bs: seq<Block>, m': Memory, bs': seq<Block>, table: int) {
    forall a ::
      a in LiveMap(m, bs) && a != table - BHEAD ==> a in LiveMap(m', bs') && LiveMap(m', bs')[a] == LiveMap(m, bs)[a]
  }

  lemma PoolKeeps(m: Memory, m': Memory, bs: seq<Block>, cs: seq<Block>, table: int)
    requires Shape(bs, |m|) && Shape(cs, |m|) && |m'| == |m| && KeepsLive(m, m', bs, cs, {})
    ensures KeptBut(m, bs, m', cs, table)
  {
    forall a | a in LiveMap(m, bs) ensures a in LiveMap(m', cs) && LiveMap(m', cs)[a] == LiveMap(m, bs)[a] {
      KeptPayload(m, m', bs, cs, {}, a + BHEAD);
    }
  }

  lemma KeptTwice(m0: Memory, m1: Memory, m2: Memory, bs: seq<Block>, cs: seq<Block>, ds: seq<Block>, table: int,
                  table': int)
    requires KeptBut(m0, bs, m1, cs, table) && KeptBut(m1, cs, m2, ds, table')
    requires table == table' || table' - BHEAD !in LiveMap(m0, bs)
    ensures KeptBut(m0, bs, m2, ds, table)
  {
    forall a | a in LiveMap(m0, bs) && a != table - BHEAD ensures a in LiveMap(m2, ds)
      && LiveMap(m2, ds)[a] == LiveMap(m0, bs)[a] {
      assert a in LiveMap(m1, cs);
    }
  }

  lemma EntryKeeps(m: Memory, m': Memory, bs: seq<Block>, table: int)
    requires Shape(bs, |m|) && |m'| == |m| && KeepsLive(m, m', bs, bs, {table - BHEAD})
    ensures KeptBut(m, bs, m', bs, table)
  {
    forall a | a in LiveMap(m, bs) && a != table - BHEAD ensures a in LiveMap(m', bs)
      && LiveMap(m', bs)[a] == LiveMap(m, bs)[a] {
      KeptPayload(m, m', bs, bs, {table - BHEAD}, a + BHEAD);
    }
  }

  lemma TableKeeps(m0: Memory, m1: Memory, m2: Memory, bs: seq<Block>, cs: seq<Block>, ds: seq<Block>, table: int,
                   table': int, n: int)
    requires KeptBut(m0, bs, m1, cs, table) && (table' - BHEAD in LiveMap(m0, bs) ==> table' - BHEAD in LiveMap(m1, cs))
    requires if table == 0 then Allocated(m1, cs, m2, ds, table', n) else Reallocated(m1, cs, m2, ds, table, table', n)
    ensures KeptBut(m0, bs, m2, ds, table) && (table == table' || table' - BHEAD !in LiveMap(m0, bs))
  {
    assert KeptBut(m1, cs, m2, ds, table);
    KeptTwice(m0, m1, m2, bs, cs, ds, table, table);
  }

  method GrowTable(h: Heap, table: int, count: int, start: int, length: int, ghost m0: Memory, ghost bs: seq<Block>)
    returns (ok: bool, table': int)
    requires h.Valid() && Tabled(m0, bs, table, count) && |m0| == |h.mem| && Shape(bs, |m0|)
    requires KeepsLive(m0, h.mem, bs, h.blocks, {}) && Bases(h.blocks) == Bases(bs) + [start]
    requires Lengths(h.blocks) == Lengths(bs) + [length]
    requires ENTRY * (count + 1) <= MAX_REQUEST
    modifies h
    ensures h.Valid() && |h.mem| == |old(h.mem)|
    ensures Bases(h.blocks) == Bases(old(h.blocks)) && Lengths(h.blocks) == Lengths(old(h.blocks))
    ensures KeptBut(m0, bs, h.mem, h.blocks, table)
    ensures ok ==> Tabled(h.mem, h.blocks, table', count + 1)
  {
    ok, table' := MoveTable(h, table, count, start, length, m0, bs);
    if ok {
      ghost var m2 := h.mem;
      EnterPool(h, table', count, start, length);
      EntryKeeps(m2, h.mem, h.blocks, table');
      KeptTwice(m0, m2, h.mem, bs, h.blocks, h.blocks, table, table');
    }
  }

  /** The table gets room for one more entry. */
  method MoveTable(h: Heap, table: int, count: int, ghost start: int, ghost length: int, ghost m0: Memory,
                   ghost bs: seq<Block>)
    returns (ok: bool, table': int)
    requires h.Valid() && Tabled(m0, bs, table, count) && |m0| == |h.mem| && Shape(bs, |m0|)
    requires KeepsLive(m0, h.mem, bs, h.blocks, {}) && Bases(h.blocks) == Bases(bs) + [start]
    requires Lengths(h.blocks) == Lengths(bs) + [length]
    requires ENTRY * (count + 1) <= MAX_REQUEST
    modifies h
    ensures h.Valid() && |h.mem| == |old(h.mem)|
    ensures Bases(h.blocks) == Bases(old(h.blocks)) && Lengths(h.blocks) == Lengths(old(h.blocks))
    ensures KeptBut(m0, bs, h.mem, h.blocks, table)
    ensures ok ==> IsLive(h.blocks, table') && ENTRY * (count + 1) <= |Payload(h.mem, h.blocks, table')|
    ensures ok ==> Entries(Payload(h.mem, h.blocks, table'), Bases(h.blocks), Lengths(h.blocks), count)
    ensures ok ==> table == table' || table' - BHEAD !in LiveMap(m0, bs)
  {
    ghost var m1, cs := h.mem, h.blocks;
    PoolKeeps(m0, m1, bs, cs, table);
    if table != 0 { KeptPayload(m0, m1, bs, cs, {}, table); }
    table' := RawRealloc(h, table, 0, 0, ENTRY * (count + 1));
    ok := table' != 0;
    if ok {
      TableMoved(m0, m1, h.mem, bs, cs, h.blocks, table, table', count, start, length);
      TableKeeps(m0, m1, h.mem, bs, cs, h.blocks, table, table', ENTRY * (count + 1));
    }
  }

  /** The new pool's entry. */
  method EnterPool(h: Heap, table: int, count: int, start: int, length: int)
    requires h.Valid() && IsLive(h.blocks, table) && 0 <= count
    requires ENTRY * (count + 1) <= |Payload(h.mem, h.blocks, table)|
    requires |Bases(h.blocks)| == |Lengths(h.blocks)| == count + 1 && Bases(h.blocks)[count] == start
    requires Lengths(h.blocks)[count] == length
    requires Entries(Payload(h.mem, h.blocks, table), Bases(h.blocks), Lengths(h.blocks), count)
    modifies h`mem
    ensures h.Valid() && |h.mem| == |old(h.mem)| && KeepsLive(old(h.mem), h.mem, h.blocks, h.blocks, {table - BHEAD})
    ensures Tabled(h.mem, h.blocks, table, count + 1)
  {
    NullIsNotLive(h.mem, h.head, h.blocks, h.free);
    WriteEntry(h, table, count, start, length);
    EntryWritten(old(h.mem), h.mem, h.blocks, table, Bases(h.blocks), Lengths(h.blocks), count);
  }

  lemma TableMoved(m0: Memory, m1: Memory, m2: Memory, bs: seq<Block>, cs: seq<Block>, ds: seq<Block>,
                   table: int, table': int, count: int, start: int, length: int)
    requires Tabled(m0, bs, table, count) && Bases(ds) == Bases(bs) + [start] && Lengths(ds) == Lengths(bs) + [length]
    requires table != 0 ==> IsLive(cs, table) && IsLive(bs, table) && Payload(m1, cs, table) == Payload(m0, bs, table)
    requires table == 0 ==> Allocated(m1, cs, m2, ds, table', ENTRY * (count + 1))
    requires table != 0 ==> Reallocated(m1, cs, m2, ds, table, table', ENTRY * (count + 1))
    ensures IsLive(ds, table') && ENTRY * (count + 1) <= |Payload(m2, ds, table')|
    ensures Entries(Payload(m2, ds, table'), Bases(ds), Lengths(ds), count)
  {
    if table != 0 {
      LiveAt(m1, cs, table);
      EntriesLonger(Payload(m1, cs, table), Bases(bs), Lengths(bs), start, length, count);
      EntriesMoved(Payload(m1, cs, table), LiveMap(m2, ds)[table' - BHEAD], Bases(ds), Lengths(ds), count);
    }
  }

  lemma EntriesLonger(s: seq<int>, bases: seq<int>, lens: seq<int>, start: int, length: int, n: int)
    requires Entries(s, bases, lens, n)
    ensures Entries(s, bases + [start], lens + [length], n)
  {
    forall i | 0 <= i < n ensures s[ENTRY * i] == (bases + [start])[i] && s[ENTRY * i + 4] == (lens + [length])[i] {
      assert s[ENTRY * i] == bases[i] && s[ENTRY * i + 4] == lens[i];
    }
  }
}
