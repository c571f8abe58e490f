/**
 The boundary-tag layout of the BGET heap (bget.c).

 Memory is a sequence of cells, one per byte address.  A machine word occupies four cells: its
 value sits in the first, and a store overwrites all four.  Every pool is cut into blocks that lie
 end to end and finish with an end sentinel; the blocks of all pools are kept in one sequence, in
 the order in which the pools were added, so that the block before a pool's first block (if any)
 is the previous pool's sentinel.

 The central lemma is Rebuild: an operation that recuts a run of neighbouring blocks, rewrites the
 headers it must and leaves every other header alone re-establishes the whole heap invariant and
 keeps every other live payload, cell by cell.
 */
module HeapLayout {

  const BHEAD := 8          // sizeof(struct bhead)
  const QUANTUM := 8        // SizeQuant, also sizeof(struct qlinks)
  const MIN_BLOCK := 16     // sizeof(struct bfhead)
  const ESENT := -0x8000_0000
  const MAX_POOL := 0x7fff_fff8

  type Memory = seq<int>

  /** The word at an address; 0 outside the memory. */
  function Word(m: Memory, a: int): int {
    if 0 <= a < |m| then m[a] else 0
  }

  datatype Kind = Free | Used | End

  /** A block's address, its size including the header, and the address of its pool. */
  datatype Block = Block(at: int, size: int, kind: Kind, pool: int) {
    function Limit(): int { at + size }
  }

  ghost predicate Sized(b: Block, top: int) {
    && 0 <= b.pool <= b.at
    && b.at % QUANTUM == 0 && b.size % QUANTUM == 0
    && (if b.kind.End? then b.size == BHEAD && b.pool < b.at else MIN_BLOCK <= b.size)
    && b.Limit() <= top
    && b.Limit() - b.pool <= MAX_POOL
  }

  /** c is the block that follows b: its neighbour, never both free, or the start of a new pool. */
  ghost predicate Linked(b: Block, c: Block) {
    if b.kind.End? then c.at == c.pool
    else c.at == b.Limit() && c.pool == b.pool && !(b.kind.Free? && c.kind.Free?)
  }

  ghost predicate LinkedAt(bs: seq<Block>, i: int)
    requires 0 < i < |bs|
  {
    Linked(bs[i - 1], bs[i])
  }

  ghost predicate Apart(b: Block, c: Block) {
    b.Limit() <= c.at || c.Limit() <= b.at
  }

  ghost predicate ApartAt(bs: seq<Block>, i: int, j: int)
    requires 0 <= i < |bs| && 0 <= j < |bs|
  {
    Apart(bs[i], bs[j])
  }

  /** The blocks tile their pools up to the sentinels, and the pools do not overlap. */
  ghost predicate Shape(bs: seq<Block>, top: int) {
    && (forall i :: 0 <= i < |bs| ==> Sized(bs[i], top))
    && (forall i :: 0 < i < |bs| ==> LinkedAt(bs, i))
    && (forall i, j :: 0 <= i < j < |bs| ==> ApartAt(bs, i, j))
    && (|bs| > 0 ==> bs[0].at == bs[0].pool && bs[|bs| - 1].kind.End?)
  }

  function SizeWord(b: Block): int {
    match b.kind
    case Free => b.size
    case Used => -b.size
    case End => ESENT
  }

  function BackWord(b: Block): int {
    if b.kind.Free? then b.size else 0
  }

  function PrevWord(bs: seq<Block>, i: int): int
    requires 0 <= i < |bs|
  {
    if i == 0 then 0 else BackWord(bs[i - 1])
  }

  /** Block i's header: bsize is signed by its state, prevfree is the free neighbour's size or 0. */
  ghost predicate HeaderAt(m: Memory, bs: seq<Block>, i: int)
    requires 0 <= i < |bs|
  {
    && Word(m, bs[i].at) == PrevWord(bs, i)
    && Word(m, bs[i].at + 4) == SizeWord(bs[i])
  }

  /** The i-th node of the circular free list; node 0 and node |fl| + 1 are the list head. */
  function RingAt(head: int, fl: seq<int>, i: int): int {
    if 1 <= i <= |fl| then fl[i - 1] else head
  }

  function Without(fl: seq<int>, p: int): seq<int>
    requires 0 <= p < |fl|
  {
    fl[..p] + fl[p + 1..]
  }

  ghost predicate HasLinks(m: Memory, a: int) { 0 <= a && a + 16 <= |m| }

  ghost predicate RingLink(m: Memory, head: int, fl: seq<int>, i: int) {
    && HasLinks(m, RingAt(head, fl, i)) && HasLinks(m, RingAt(head, fl, i + 1))
    && Word(m, RingAt(head, fl, i) + 8) == RingAt(head, fl, i + 1)
    && Word(m, RingAt(head, fl, i + 1) + 12) == RingAt(head, fl, i)
  }

  ghost predicate Ring(m: Memory, head: int, fl: seq<int>) {
    forall i :: 0 <= i <= |fl| ==> RingLink(m, head, fl, i)
  }

  /** The addresses of the blocks of one kind. */
  ghost function Starts(kind: Kind, bs: seq<Block>): set<int> {
    set i | 0 <= i < |bs| && bs[i].kind == kind :: bs[i].at
  }

  ghost function Elems(fl: seq<int>): set<int> {
    set p | 0 <= p < |fl| :: fl[p]
  }

  ghost predicate Distinct(fl: seq<int>) {
    forall p, q :: 0 <= p < q < |fl| ==> fl[p] != fl[q]
  }

  /** The free list holds exactly the free blocks, once each. */
  ghost predicate Listed(bs: seq<Block>, fl: seq<int>) {
    Distinct(fl) && Elems(fl) == Starts(Free, bs)
  }

  ghost predicate HeadApart(head: int, b: Block) {
    head + 16 <= b.at || b.Limit() <= head
  }

  /** The heap invariant.  The equation makes the verifier check it as one fact, not part by part. */
  ghost predicate IsHeap(m: Memory, head: int, bs: seq<Block>, fl: seq<int>) {
    HeapInvariant(m, head, bs, fl) == true
  }

  ghost predicate HeapInvariant(m: Memory, head: int, bs: seq<Block>, fl: seq<int>) {
    && Shape(bs, |m|)
    && HasLinks(m, head)
    && (forall i :: 0 <= i < |bs| ==> HeadApart(head, bs[i]))
    && (forall i :: 0 <= i < |bs| ==> HeaderAt(m, bs, i))
    && Ring(m, head, fl)
    && Listed(bs, fl)
  }

  // ---------------------------------------------------------------- recutting a run of blocks

  function Recut(bs: seq<Block>, i: int, j: int, mid: seq<Block>): seq<Block>
    requires 0 <= i <= j <= |bs|
  {
    bs[..i] + mid + bs[j..]
  }

  lemma RecutParts(bs: seq<Block>, i: int, j: int, mid: seq<Block>)
    requires 0 <= i <= j <= |bs|
    ensures bs == bs[..i] + (bs[i..j] + bs[j..])
    ensures Recut(bs, i, j, mid) == bs[..i] + (mid + bs[j..])
  {
  }

  /** mid covers exactly what blocks i up to j cover, and fits its neighbours. */
  ghost predicate Fits(bs: seq<Block>, i: int, j: int, mid: seq<Block>, top: int) {
    && 0 <= i < j < |bs| && |mid| > 0
    && (forall k :: i <= k < j ==> !bs[k].kind.End?)
    && (forall k :: 0 <= k < |mid| ==> Sized(mid[k], top) && !mid[k].kind.End? && mid[k].pool == bs[i].pool)
    && (forall k :: 0 < k < |mid| ==> LinkedAt(mid, k))
    && mid[0].at == bs[i].at
    && mid[|mid| - 1].Limit() == bs[j].at
    && !(i > 0 && bs[i - 1].kind.Free? && mid[0].kind.Free?)
    && !(mid[|mid| - 1].kind.Free? && bs[j].kind.Free?)
  }

  lemma {:induction false} RunIsOrdered(bs: seq<Block>, top: int, i: int, j: int)
    requires Shape(bs, top) && 0 <= i <= j < |bs|
    requires forall k :: i <= k < j ==> !bs[k].kind.End?
    ensures bs[i].at <= bs[j].at && bs[j].pool == bs[i].pool
    ensures i < j ==> bs[i].Limit() <= bs[j].at
    decreases j - i
  {
    if i < j {
      RunIsOrdered(bs, top, i, j - 1);
      assert LinkedAt(bs, j);
    }
  }

  /** A block outside a run of neighbours lies wholly before or wholly after the run. */
  lemma {:induction false} OutsideRun(bs: seq<Block>, top: int, i: int, j: int, q: int)
    requires Shape(bs, top) && 0 <= i < j < |bs|
    requires forall k :: i <= k < j ==> !bs[k].kind.End?
    requires 0 <= q < i || j <= q < |bs|
    ensures bs[q].Limit() <= bs[i].at || bs[j].at <= bs[q].at
    decreases j - i
  {
    if q == j {
      assert bs[j].at <= bs[q].at;
    } else {
      assert LinkedAt(bs, j);
      assert if q < j - 1 then ApartAt(bs, q, j - 1) else ApartAt(bs, j - 1, q);
      if i < j - 1 {
        if q < i || j - 1 <= q {
          OutsideRun(bs, top, i, j - 1, q);
        }
      }
    }
  }

  lemma {:induction false} InsideRun(mid: seq<Block>, top: int, k: int)
    requires 0 <= k < |mid|
    requires forall n :: 0 <= n < |mid| ==> Sized(mid[n], top) && !mid[n].kind.End?
    requires forall n :: 0 < n < |mid| ==> LinkedAt(mid, n)
    ensures mid[0].at <= mid[k].at && mid[k].Limit() <= mid[|mid| - 1].Limit()
    ensures forall n :: 0 <= n < k ==> mid[n].Limit() <= mid[k].at
    decreases |mid|
  {
    if |mid| > 1 {
      var init := mid[..|mid| - 1];
      forall n | 0 < n < |init| ensures LinkedAt(init, n) { assert LinkedAt(mid, n); }
      assert LinkedAt(mid, |mid| - 1);
      if k < |mid| - 1 {
        InsideRun(init, top, k);
        assert init[k] == mid[k];
        assert forall n :: 0 <= n < k ==> init[n] == mid[n];
      } else {
        InsideRun(init, top, k - 1);
        forall n | 0 <= n < k ensures mid[n].Limit() <= mid[k].at {
          assert init[n] == mid[n];
        }
      }
    }
  }

  /** Where the blocks of the recut sequence come from. */
  lemma RecutAt(bs: seq<Block>, i: int, j: int, mid: seq<Block>, k: int)
    requires 0 <= i <= j <= |bs| && 0 <= k < i + |mid| + |bs| - j
    ensures |Recut(bs, i, j, mid)| == i + |mid| + |bs| - j
    ensures Recut(bs, i, j, mid)[k] ==
      if k < i then bs[k] else if k < i + |mid| then mid[k - i] else bs[k - (i + |mid| - j)]
  {
  }

  lemma RecutLinks(bs: seq<Block>, top: int, i: int, j: int, mid: seq<Block>, k: int)
    requires Shape(bs, top) && Fits(bs, i, j, mid, top)
    requires 0 < k < i + |mid| + |bs| - j
    ensures |Recut(bs, i, j, mid)| == i + |mid| + |bs| - j
    ensures LinkedAt(Recut(bs, i, j, mid), k)
  {
    RecutAt(bs, i, j, mid, k - 1);
    RecutAt(bs, i, j, mid, k);
    if k < i { assert LinkedAt(bs, k); }
    else if k == i { assert LinkedAt(bs, i); }
    else if k < i + |mid| { assert LinkedAt(mid, k - i); }
    else if k == i + |mid| { RunIsOrdered(bs, top, i, j); }
    else { assert LinkedAt(bs, k - (i + |mid| - j)); }
  }

  /** A recut block stays apart from every block outside the run. */
  lemma RecutStaysInside(bs: seq<Block>, top: int, i: int, j: int, mid: seq<Block>, k: int, q: int)
    requires Shape(bs, top) && Fits(bs, i, j, mid, top)
    requires 0 <= k < |mid| && (0 <= q < i || j <= q < |bs|)
    ensures Apart(mid[k], bs[q]) && Apart(bs[q], mid[k])
  {
    InsideRun(mid, top, k);
    OutsideRun(bs, top, i, j, q);
  }

  lemma RecutIsApart(bs: seq<Block>, top: int, i: int, j: int, mid: seq<Block>, p: int, q: int)
    requires Shape(bs, top) && Fits(bs, i, j, mid, top)
    requires 0 <= p < q < i + |mid| + |bs| - j
    ensures |Recut(bs, i, j, mid)| == i + |mid| + |bs| - j
    ensures ApartAt(Recut(bs, i, j, mid), p, q)
  {
    var d := i + |mid| - j;
    RecutAt(bs, i, j, mid, p);
    RecutAt(bs, i, j, mid, q);
    if i <= p < i + |mid| {
      if q < i + |mid| {
        InsideRun(mid, top, q - i);
      } else {
        RecutStaysInside(bs, top, i, j, mid, p - i, q - d);
      }
    } else if i <= q < i + |mid| {
      RecutStaysInside(bs, top, i, j, mid, q - i, p);
    } else {
      assert ApartAt(bs, if p < i then p else p - d, if q < i then q else q - d);
    }
  }

  lemma RecutKeepsShape(bs: seq<Block>, top: int, i: int, j: int, mid: seq<Block>)
    requires Shape(bs, top) && Fits(bs, i, j, mid, top)
    ensures Shape(Recut(bs, i, j, mid), top)
  {
    var cs := Recut(bs, i, j, mid);
    forall k | 0 <= k < |cs| ensures Sized(cs[k], top) { RecutAt(bs, i, j, mid, k); }
    forall k | 0 < k < |cs| ensures LinkedAt(cs, k) { RecutLinks(bs, top, i, j, mid, k); }
    forall p, q | 0 <= p < q < |cs| ensures ApartAt(cs, p, q) { RecutIsApart(bs, top, i, j, mid, p, q); }
    RecutAt(bs, i, j, mid, 0);
    RecutAt(bs, i, j, mid, |cs| - 1);
  }

  // ---------------------------------------------------------------- what an operation may write

  ghost predicate InLinks(head: int, bs: seq<Block>, c: int) {
    || head + 8 <= c < head + 16
    || exists r :: 0 <= r < |bs| && bs[r].kind.Free? && bs[r].at + 8 <= c < bs[r].at + 16
  }

  /** Only the run [i, j), the next block's prevfree word and free-list links have been written. */
  ghost predicate WritesRun(m: Memory, m': Memory, head: int, bs: seq<Block>, i: int, j: int)
    requires 0 <= i < j < |bs|
  {
    && |m| == |m'|
    && forall c ::
      0 <= c < |m| && !(bs[i].at <= c < bs[j].at + 4) && !InLinks(head, bs, c) ==> Word(m', c) == Word(m, c)
  }

  ghost predicate SameSpan(m: Memory, m': Memory, lo: int, hi: int) {
    forall c :: lo <= c < hi && 0 <= c < |m| && c < |m'| ==> Word(m', c) == Word(m, c)
  }

  /** Every live block other than those of the run is still there, with all its payload cells. */
  ghost predicate KeepsLive(m: Memory, m': Memory, bs: seq<Block>, cs: seq<Block>, lost: set<int>) {
    LiveAreKept(m, m', bs, cs, lost) == true
  }

  ghost predicate LiveAreKept(m: Memory, m': Memory, bs: seq<Block>, cs: seq<Block>, lost: set<int>) {
    forall q :: 0 <= q < |bs| && bs[q].kind.Used? && bs[q].at !in lost ==>
      bs[q] in cs && SameSpan(m, m', bs[q].at + BHEAD, bs[q].Limit())
  }

  lemma IsNotLink(m: Memory, head: int, bs: seq<Block>, fl: seq<int>, q: int, c: int)
    requires IsHeap(m, head, bs, fl) && 0 <= q < |bs|
    requires bs[q].at <= c < bs[q].Limit()
    requires bs[q].kind.Free? ==> c < bs[q].at + 8 || bs[q].at + 16 <= c
    ensures !InLinks(head, bs, c)
  {
    assert HeadApart(head, bs[q]);
    forall r | 0 <= r < |bs| && bs[r].kind.Free? ensures !(bs[r].at + 8 <= c < bs[r].at + 16) {
      if r != q {
        assert if r < q then ApartAt(bs, r, q) else ApartAt(bs, q, r);
        assert Sized(bs[r], |m|);
      }
    }
  }

  /** The blocks outside the run keep the words the operation does not touch. */
  lemma OutsideIsKept(m: Memory, m': Memory, head: int, bs: seq<Block>, fl: seq<int>, i: int, j: int, q: int)
    requires IsHeap(m, head, bs, fl) && 0 <= i < j < |bs|
    requires forall k :: i <= k < j ==> !bs[k].kind.End?
    requires WritesRun(m, m', head, bs, i, j)
    requires 0 <= q < i || j <= q < |bs|
    ensures Word(m', bs[q].at + 4) == Word(m, bs[q].at + 4)
    ensures q != j ==> Word(m', bs[q].at) == Word(m, bs[q].at)
    ensures bs[q].kind.Used? ==> SameSpan(m, m', bs[q].at + BHEAD, bs[q].Limit())
  {
    OutsideRun(bs, |m|, i, j, q);
    assert Sized(bs[q], |m|) && Sized(bs[j], |m|) && Sized(bs[i], |m|);
    if q != j {
      assert if q < j then ApartAt(bs, q, j) else ApartAt(bs, j, q);
    }
    IsNotLink(m, head, bs, fl, q, bs[q].at);
    IsNotLink(m, head, bs, fl, q, bs[q].at + 4);
    if bs[q].kind.Used? {
      forall c | bs[q].at + BHEAD <= c < bs[q].Limit() && 0 <= c < |m| ensures Word(m', c) == Word(m, c) {
        IsNotLink(m, head, bs, fl, q, c);
      }
    }
  }

  ghost predicate MidHeaderAt(m: Memory, back: int, mid: seq<Block>, k: int)
    requires 0 <= k < |mid|
  {
    && Word(m, mid[k].at + 4) == SizeWord(mid[k])
    && Word(m, mid[k].at) == if k == 0 then back else BackWord(mid[k - 1])
  }

  /** The headers of mid as the operation has left them; back is the word before mid. */
  ghost predicate MidHeaders(m: Memory, back: int, mid: seq<Block>) {
    forall k :: 0 <= k < |mid| ==> MidHeaderAt(m, back, mid, k)
  }

  lemma RebuiltInside(m': Memory, bs: seq<Block>, i: int, j: int, mid: seq<Block>, k: int)
    requires 0 <= i < j < |bs| && i <= k < i + |mid|
    requires MidHeaders(m', PrevWord(bs, i), mid)
    ensures HeaderAt(m', Recut(bs, i, j, mid), k)
  {
    RecutAt(bs, i, j, mid, k);
    if k > 0 { RecutAt(bs, i, j, mid, k - 1); }
    assert MidHeaderAt(m', PrevWord(bs, i), mid, k - i);
  }

  lemma RebuiltOutside(m: Memory, m': Memory, head: int, bs: seq<Block>, fl: seq<int>,
                       i: int, j: int, mid: seq<Block>, q: int)
    requires IsHeap(m, head, bs, fl)
    requires 0 <= i < j < |bs| && |mid| > 0 && forall k :: i <= k < j ==> !bs[k].kind.End?
    requires WritesRun(m, m', head, bs, i, j)
    requires Word(m', bs[j].at) == BackWord(mid[|mid| - 1])
    requires 0 <= q < i || j <= q < |bs|
    ensures HeaderAt(m', Recut(bs, i, j, mid), if q < i then q else q + (i + |mid| - j))
  {
    var k := if q < i then q else q + (i + |mid| - j);
    RecutAt(bs, i, j, mid, k);
    if k > 0 { RecutAt(bs, i, j, mid, k - 1); }
    assert HeaderAt(m, bs, q);
    OutsideIsKept(m, m', head, bs, fl, i, j, q);
  }

  lemma RebuiltHeaders(m: Memory, m': Memory, head: int, bs: seq<Block>, fl: seq<int>,
                       i: int, j: int, mid: seq<Block>)
    requires IsHeap(m, head, bs, fl)
    requires 0 <= i < j < |bs| && |mid| > 0 && forall k :: i <= k < j ==> !bs[k].kind.End?
    requires WritesRun(m, m', head, bs, i, j)
    requires MidHeaders(m', PrevWord(bs, i), mid)
    requires Word(m', bs[j].at) == BackWord(mid[|mid| - 1])
    ensures forall k :: 0 <= k < |Recut(bs, i, j, mid)| ==> HeaderAt(m', Recut(bs, i, j, mid), k)
  {
    forall k | 0 <= k < |Recut(bs, i, j, mid)| ensures HeaderAt(m', Recut(bs, i, j, mid), k) {
      if i <= k < i + |mid| {
        RebuiltInside(m', bs, i, j, mid, k);
      } else {
        RebuiltOutside(m, m', head, bs, fl, i, j, mid, if k < i then k else k - (i + |mid| - j));
      }
    }
  }

  lemma RebuiltApartFromHead(m: Memory, head: int, bs: seq<Block>, fl: seq<int>,
                             i: int, j: int, mid: seq<Block>, k: int)
    requires IsHeap(m, head, bs, fl)
    requires Fits(bs, i, j, mid, |m|)
    requires 0 <= k < i + |mid| + |bs| - j
    ensures |Recut(bs, i, j, mid)| == i + |mid| + |bs| - j
    ensures HeadApart(head, Recut(bs, i, j, mid)[k])
  {
    RecutAt(bs, i, j, mid, k);
    if k < i || i + |mid| <= k {
      assert HeadApart(head, bs[if k < i then k else k - (i + |mid| - j)]);
    } else {
      InsideRun(mid, |m|, k - i);
      HeadOutsideRun(m, head, bs, fl, i, j);
    }
  }

  lemma RebuiltKeepsLive(m: Memory, m': Memory, head: int, bs: seq<Block>, fl: seq<int>,
                         i: int, j: int, mid: seq<Block>, lost: set<int>)
    requires IsHeap(m, head, bs, fl)
    requires Fits(bs, i, j, mid, |m|)
    requires WritesRun(m, m', head, bs, i, j)
    requires forall k :: i <= k < j && bs[k].kind.Used? ==> bs[k].at in lost
    ensures KeepsLive(m, m', bs, Recut(bs, i, j, mid), lost)
  {
    forall q | 0 <= q < |bs| && bs[q].kind.Used? && bs[q].at !in lost
      ensures bs[q] in Recut(bs, i, j, mid) && SameSpan(m, m', bs[q].at + BHEAD, bs[q].Limit())
    {
      OutsideIsKept(m, m', head, bs, fl, i, j, q);
      RecutAt(bs, i, j, mid, if q < i then q else q + (i + |mid| - j));
    }
  }

  /** The master lemma: a recut run with its headers in place is a heap again. */
  lemma Rebuild(m: Memory, m': Memory, head: int, bs: seq<Block>, fl: seq<int>,
                i: int, j: int, mid: seq<Block>, fl': seq<int>, lost: set<int>)
    requires IsHeap(m, head, bs, fl)
    requires Fits(bs, i, j, mid, |m|)
    requires WritesRun(m, m', head, bs, i, j)
    requires MidHeaders(m', PrevWord(bs, i), mid)
    requires Word(m', bs[j].at) == BackWord(mid[|mid| - 1])
    requires forall k :: i <= k < j && bs[k].kind.Used? ==> bs[k].at in lost
    requires Ring(m', head, fl')
    requires Listed(Recut(bs, i, j, mid), fl')
    ensures IsHeap(m', head, Recut(bs, i, j, mid), fl')
    ensures KeepsLive(m, m', bs, Recut(bs, i, j, mid), lost)
  {
    RecutKeepsShape(bs, |m|, i, j, mid);
    RebuiltHeaders(m, m', head, bs, fl, i, j, mid);
    forall k | 0 <= k < |Recut(bs, i, j, mid)| ensures HeadApart(head, Recut(bs, i, j, mid)[k]) {
      RebuiltApartFromHead(m, head, bs, fl, i, j, mid, k);
    }
    RebuiltKeepsLive(m, m', head, bs, fl, i, j, mid, lost);
  }

  lemma {:induction false} HeadOutsideRun(m: Memory, head: int, bs: seq<Block>, fl: seq<int>, i: int, j: int)
    requires IsHeap(m, head, bs, fl) && 0 <= i < j < |bs|
    requires forall k :: i <= k < j ==> !bs[k].kind.End?
    ensures head + 16 <= bs[i].at || bs[j].at <= head
    decreases j - i
  {
    assert LinkedAt(bs, j) && HeadApart(head, bs[j - 1]);
    if i < j - 1 { HeadOutsideRun(m, head, bs, fl, i, j - 1); }
  }

  // ---------------------------------------------------------------- the free list

  /** The ring's nodes keep their link words, so the ring is unchanged. */
  lemma RingIsKept(m: Memory, m': Memory, head: int, fl: seq<int>)
    requires |m'| == |m| && Ring(m, head, fl)
    requires forall i :: 0 <= i <= |fl| ==>
      var a := RingAt(head, fl, i); Word(m', a + 8) == Word(m, a + 8) && Word(m', a + 12) == Word(m, a + 12)
    ensures Ring(m', head, fl)
  {
    forall i | 0 <= i <= |fl| ensures RingLink(m', head, fl, i) {
      assert RingLink(m, head, fl, i);
      if i == |fl| { assert RingAt(head, fl, i + 1) == RingAt(head, fl, 0); }
    }
  }

  ghost predicate Gap(a: int, b: int) { a + 16 <= b || b + 16 <= a }

  /** The nodes of the ring do not overlap. */
  ghost predicate Spaced(head: int, fl: seq<int>) {
    && (forall p :: 0 <= p < |fl| ==> Gap(head, fl[p]))
    && (forall p, q :: 0 <= p < q < |fl| ==> Gap(fl[p], fl[q]))
  }

  /** c is a cell of some ring node's links. */
  ghost predicate NodeCell(head: int, fl: seq<int>, c: int) {
    || head + 8 <= c < head + 16
    || exists p :: 0 <= p < |fl| && fl[p] + 8 <= c < fl[p] + 16
  }

  lemma NodeWords(head: int, fl: seq<int>, i: int)
    ensures forall c :: RingAt(head, fl, i) + 8 <= c < RingAt(head, fl, i) + 16 ==> NodeCell(head, fl, c)
  {
    if 1 <= i <= |fl| { assert fl[i - 1] == RingAt(head, fl, i); }
  }

  lemma NodesGap(head: int, fl: seq<int>, i: int, j: int)
    requires Spaced(head, fl) && 0 <= i <= |fl| && 0 <= j <= |fl| && i != j
    ensures Gap(RingAt(head, fl, i), RingAt(head, fl, j))
  {
    if 0 < i < j { assert Gap(fl[i - 1], fl[j - 1]); }
    if 0 < j < i { assert Gap(fl[j - 1], fl[i - 1]); }
  }

  /** Only the words at a and b among the ring's link words may have changed. */
  ghost predicate LinksKept(m: Memory, m': Memory, head: int, fl: seq<int>, a: int, b: int) {
    && |m| == |m'|
    && forall c :: NodeCell(head, fl, c) && !(a <= c < a + 4) && !(b <= c < b + 4) ==> Word(m', c) == Word(m, c)
  }

  /** A link that does not touch node p's place is kept. */
  lemma FarLink(m: Memory, m': Memory, head: int, fl: seq<int>, p: int, n: int)
    requires Ring(m, head, fl) && Spaced(head, fl) && 0 <= p < |fl|
    requires LinksKept(m, m', head, fl, RingAt(head, fl, p) + 8, RingAt(head, fl, p + 2) + 12)
    requires 0 <= n <= |fl| && n != p && n != p + 1
    ensures RingLink(m', head, fl, n)
  {
    assert RingLink(m, head, fl, n);
    var succ, next := if p + 2 <= |fl| then p + 2 else 0, if n + 1 <= |fl| then n + 1 else 0;
    assert RingAt(head, fl, n + 1) == RingAt(head, fl, next) && RingAt(head, fl, p + 2) == RingAt(head, fl, succ);
    NodeWords(head, fl, n);
    NodeWords(head, fl, next);
    NodesGap(head, fl, n, p);
    NodesGap(head, fl, next, succ);
    if n != succ { NodesGap(head, fl, n, succ); }
    if next != p { NodesGap(head, fl, next, p); }
  }

  /** Unlinking node p: its neighbours now point at each other. */
  lemma RingRemoves(m: Memory, m': Memory, head: int, fl: seq<int>, p: int)
    requires Ring(m, head, fl) && Spaced(head, fl) && 0 <= p < |fl|
    requires Word(m', RingAt(head, fl, p) + 8) == RingAt(head, fl, p + 2)
    requires Word(m', RingAt(head, fl, p + 2) + 12) == RingAt(head, fl, p)
    requires LinksKept(m, m', head, fl, RingAt(head, fl, p) + 8, RingAt(head, fl, p + 2) + 12)
    ensures Ring(m', head, Without(fl, p))
  {
    var gl := Without(fl, p);
    forall i | 0 <= i <= |gl| ensures RingLink(m', head, gl, i) {
      assert RingAt(head, gl, i) == RingAt(head, fl, if i <= p then i else i + 1);
      assert RingAt(head, gl, i + 1) == RingAt(head, fl, if i < p then i + 1 else i + 2);
      if i != p {
        FarLink(m, m', head, fl, p, if i < p then i else i + 1);
      } else {
        assert RingLink(m, head, fl, p) && RingLink(m, head, fl, p + 1);
      }
    }
  }

  /** Linking a new last node x. */
  lemma RingAppends(m: Memory, m': Memory, head: int, fl: seq<int>, x: int)
    requires Ring(m, head, fl) && Spaced(head, fl + [x]) && HasLinks(m, x)
    requires Word(m', x + 8) == head && Word(m', x + 12) == RingAt(head, fl, |fl|)
    requires Word(m', head + 12) == x && Word(m', RingAt(head, fl, |fl|) + 8) == x
    requires LinksKept(m, m', head, fl, head + 12, RingAt(head, fl, |fl|) + 8)
    ensures Ring(m', head, fl + [x])
  {
    var gl := fl + [x];
    SpacedPrefix(head, fl, x);
    forall i | 0 <= i <= |gl| ensures RingLink(m', head, gl, i) {
      assert RingLink(m, head, fl, if i <= |fl| then i else 0) && RingLink(m, head, fl, |fl|);
      assert forall k :: 0 <= k <= |fl| ==> RingAt(head, gl, k) == RingAt(head, fl, k);
      if i < |fl| {
        NodeWords(head, fl, i);
        NodeWords(head, fl, i + 1);
        NodesGap(head, fl, i, |fl|);
        NodesGap(head, fl, i + 1, 0);
      }
    }
  }

  lemma SpacedPrefix(head: int, fl: seq<int>, x: int)
    requires Spaced(head, fl + [x])
    ensures Spaced(head, fl)
  {
    var gl := fl + [x];
    assert forall p :: 0 <= p < |fl| ==> gl[p] == fl[p];
  }

  /** Putting node y in the place of node p. */
  lemma RingReplaces(m: Memory, m': Memory, head: int, fl: seq<int>, p: int, y: int)
    requires Ring(m, head, fl) && Spaced(head, fl) && 0 <= p < |fl| && HasLinks(m, y)
    requires Word(m', y + 8) == RingAt(head, fl, p + 2) && Word(m', y + 12) == RingAt(head, fl, p)
    requires Word(m', RingAt(head, fl, p) + 8) == y && Word(m', RingAt(head, fl, p + 2) + 12) == y
    requires LinksKept(m, m', head, fl, RingAt(head, fl, p) + 8, RingAt(head, fl, p + 2) + 12)
    ensures Ring(m', head, fl[p := y])
  {
    var gl := fl[p := y];
    forall i | 0 <= i <= |gl| ensures RingLink(m', head, gl, i) {
      assert RingAt(head, gl, i) == if i == p + 1 then y else RingAt(head, fl, i);
      assert RingAt(head, gl, i + 1) == if i == p then y else RingAt(head, fl, i + 1);
      if i != p && i != p + 1 {
        FarLink(m, m', head, fl, p, i);
      } else {
        assert RingLink(m, head, fl, p) && RingLink(m, head, fl, p + 1);
      }
    }
  }

  // ---------------------------------------------------------------- the free blocks of a recut heap

  lemma StartsSplit(kind: Kind, a: seq<Block>, b: seq<Block>)
    ensures Starts(kind, a + b) == Starts(kind, a) + Starts(kind, b)
  {
    forall x | x in Starts(kind, a) + Starts(kind, b) ensures x in Starts(kind, a + b) {
      if x in Starts(kind, a) {
        var i :| 0 <= i < |a| && a[i].kind == kind && a[i].at == x;
        assert (a + b)[i] == a[i];
      } else {
        var i :| 0 <= i < |b| && b[i].kind == kind && b[i].at == x;
        assert (a + b)[|a| + i] == b[i];
      }
    }
  }

  lemma StartsOne(kind: Kind, b: Block)
    ensures Starts(kind, [b]) == if b.kind == kind then {b.at} else {}
  {
    assert [b][0] == b;
  }

  lemma StartsTwo(kind: Kind, b: Block, c: Block)
    ensures Starts(kind, [b, c]) == (if b.kind == kind then {b.at} else {}) + (if c.kind == kind then {c.at} else {})
  {
    assert [b, c] == [b] + [c];
    StartsSplit(kind, [b], [c]);
    StartsOne(kind, b);
    StartsOne(kind, c);
  }

  /** No block outside a run starts where one of the run starts. */
  lemma RunIsUnique(kind: Kind, bs: seq<Block>, top: int, i: int, j: int)
    requires Shape(bs, top) && 0 <= i < j < |bs|
    ensures Starts(kind, bs[i..j]) !! Starts(kind, bs[..i]) + Starts(kind, bs[j..])
  {
    forall x | x in Starts(kind, bs[i..j]) ensures x !in Starts(kind, bs[..i]) + Starts(kind, bs[j..]) {
      var k :| 0 <= k < j - i && bs[i..j][k].at == x;
      forall q | 0 <= q < i || j <= q < |bs| ensures bs[q].at != x {
        assert Sized(bs[q], top) && Sized(bs[i + k], top);
        assert if q < i + k then ApartAt(bs, q, i + k) else ApartAt(bs, i + k, q);
      }
    }
  }

  lemma RecutStarts(kind: Kind, bs: seq<Block>, top: int, i: int, j: int, mid: seq<Block>)
    requires Shape(bs, top) && 0 <= i < j < |bs|
    ensures Starts(kind, Recut(bs, i, j, mid)) == Starts(kind, bs) - Starts(kind, bs[i..j]) + Starts(kind, mid)
    ensures Starts(kind, bs[i..j]) <= Starts(kind, bs)
  {
    var pre, run, post := bs[..i], bs[i..j], bs[j..];
    assert bs == pre + (run + post) && Recut(bs, i, j, mid) == pre + (mid + post);
    StartsSplit(kind, pre, run + post);
    StartsSplit(kind, run, post);
    StartsSplit(kind, pre, mid + post);
    StartsSplit(kind, mid, post);
    RunIsUnique(kind, bs, top, i, j);
  }

  lemma WithoutElems(fl: seq<int>, p: int)
    requires 0 <= p < |fl| && Distinct(fl)
    ensures Distinct(Without(fl, p)) && Elems(Without(fl, p)) == Elems(fl) - {fl[p]}
  {
    var gl := Without(fl, p);
    assert forall q :: 0 <= q < |gl| ==> gl[q] == fl[if q < p then q else q + 1];
    forall x | x in Elems(fl) - {fl[p]} ensures x in Elems(gl) {
      var q :| 0 <= q < |fl| && fl[q] == x;
      assert gl[if q < p then q else q - 1] == x;
    }
  }

  lemma AppendElems(fl: seq<int>, x: int)
    requires Distinct(fl) && x !in Elems(fl)
    ensures Distinct(fl + [x]) && Elems(fl + [x]) == Elems(fl) + {x}
  {
    var gl := fl + [x];
    assert gl[|fl|] == x;
    forall y | y in Elems(fl) ensures y in Elems(gl) {
      var q :| 0 <= q < |fl| && fl[q] == y;
      assert gl[q] == y;
    }
  }

  lemma UpdateElems(fl: seq<int>, p: int, y: int)
    requires 0 <= p < |fl| && Distinct(fl) && y !in Elems(fl)
    ensures Distinct(fl[p := y]) && Elems(fl[p := y]) == Elems(fl) - {fl[p]} + {y}
  {
    var gl := fl[p := y];
    assert gl[p] == y;
    forall x | x in Elems(fl) - {fl[p]} ensures x in Elems(gl) {
      var q :| 0 <= q < |fl| && fl[q] == x;
      assert gl[q] == x;
    }
  }

  // ---------------------------------------------------------------- totals

  /** Bytes of the blocks of one kind, headers included. */
  ghost function Bytes(bs: seq<Block>, kind: Kind): int {
    if bs == [] then 0 else (if bs[0].kind == kind then bs[0].size else 0) + Bytes(bs[1..], kind)
  }

  lemma {:induction false} BytesSplit(a: seq<Block>, b: seq<Block>, kind: Kind)
    ensures Bytes(a + b, kind) == Bytes(a, kind) + Bytes(b, kind)
  {
    if a == [] {
      assert a + b == b;
    } else {
      assert (a + b)[1..] == a[1..] + b;
      BytesSplit(a[1..], b, kind);
    }
  }

  lemma BytesRecut(bs: seq<Block>, i: int, j: int, mid: seq<Block>, kind: Kind)
    requires 0 <= i <= j <= |bs|
    ensures Bytes(Recut(bs, i, j, mid), kind) == Bytes(bs, kind) - Bytes(bs[i..j], kind) + Bytes(mid, kind)
  {
    var pre, run, post := bs[..i], bs[i..j], bs[j..];
    assert bs == pre + (run + post) && Recut(bs, i, j, mid) == pre + (mid + post);
    BytesSplit(pre, run + post, kind);
    BytesSplit(run, post, kind);
    BytesSplit(pre, mid + post, kind);
    BytesSplit(mid, post, kind);
  }
}
