/**
 Moving a blob: fdt_open_into copies it into a larger buffer, if need be with its blocks put in
 order, and fdt_pack closes the gaps between the blocks, in place.
 The header's fields are a record here; the rest is memory.
 */
module FdtPack {
  import opened Seal
  import opened Seqs
  import opened Options
  import opened FdtFormat
  import opened FdtBytes
  import opened FdtTree
  import opened FdtRead
  import opened FdtLookup
  import opened FdtReserve

  const ERR_BADVERSION := -10
  const ERR_BADLAYOUT := -12

  datatype Header = Header(total: int, offReserve: int, offStruct: int, sizeStruct: int, offStrings: int,
    sizeStrings: int)

  /** What the blob at an address of memory says: its reserve map, structure block and strings block. */
  datatype Contents = Contents(reserve: seq<byte>, structure: seq<byte>, strings: seq<byte>)

  /** The blocks lie in the blob, the blob in memory; n is the size of the reserve map. */
  predicate BlobOk(m: seq<byte>, at: int, h: Header, n: int) {
    BlobFits(m, at, h, n) == true
  }

  predicate BlobFits(m: seq<byte>, at: int, h: Header, n: int) {
    && 0 <= at && 0 <= h.total && at + h.total <= |m| && 0 <= n && n % ENTRY == 0
    && 0 <= h.offReserve && h.offReserve + n <= h.total && 0 <= h.offStruct && 0 <= h.sizeStruct
      && h.offStruct + h.sizeStruct <= h.total
    && 0 <= h.offStrings && 0 <= h.sizeStrings && h.offStrings + h.sizeStrings <= h.total
  }

  function ContentsOf(m: seq<byte>, at: int, h: Header, n: int): Contents
    requires BlobOk(m, at, h, n)
  {
    Contents(m[at + h.offReserve..at + h.offReserve + n], m[at + h.offStruct..at + h.offStruct + h.sizeStruct],
             m[at + h.offStrings..at + h.offStrings + h.sizeStrings])
  }

  /** _fdt_blocks_misordered, with the real size of the reserve map. */
  predicate InOrder(h: Header, n: int) {
    && HEADER_SIZE <= h.offReserve && h.offReserve + n <= h.offStruct
    && h.offStruct + h.sizeStruct <= h.offStrings && h.offStrings + h.sizeStrings <= h.total
  }

  // ---------------------------------------------------------------- moving blocks

  /** A block that was moved, and one that was not touched. */
  lemma BlockMoved(m: seq<byte>, m': seq<byte>, to: int, from: int, n: int)
    requires IsMoved(m, m', to, from, n)
    ensures Within(m, from, n) && Within(m', to, n) && m'[to..to + n] == m[from..from + n]
  {
    var u, v := m'[to..to + n], m[from..from + n];
    forall i | 0 <= i < n ensures u[i] == v[i] { assert u[i] == m'[to + i] && v[i] == m[from + i]; }
  }

  lemma BlockKept(m: seq<byte>, m': seq<byte>, to: int, from: int, n: int, x: int, k: int)
    requires IsMoved(m, m', to, from, n) && Within(m, x, k) && (x + k <= to || to + n <= x || k == 0)
    ensures Within(m', x, k) && m'[x..x + k] == m[x..x + k]
  {
  }

  /** No byte outside [lo, hi) is changed. */
  ghost predicate SameOutside(m: seq<byte>, m': seq<byte>, lo: int, hi: int) {
    OthersSame(m, m', lo, hi) == true
  }

  ghost predicate OthersSame(m: seq<byte>, m': seq<byte>, lo: int, hi: int) {
    |m'| == |m| && forall i :: 0 <= i < |m| && !(lo <= i < hi) ==> m'[i] == m[i]
  }

  lemma MovedInside(m: seq<byte>, m': seq<byte>, to: int, from: int, n: int, lo: int, hi: int)
    requires IsMoved(m, m', to, from, n) && lo <= to && to + n <= hi
    ensures SameOutside(m, m', lo, hi)
  {
  }

  lemma SameTwice(m: seq<byte>, m1: seq<byte>, m2: seq<byte>, lo: int, hi: int, lo1: int, hi1: int, lo2: int, hi2: int)
    requires SameOutside(m, m1, lo1, hi1) && SameOutside(m1, m2, lo2, hi2) && lo <= lo1 && hi1 <= hi
    requires lo <= lo2 && hi2 <= hi
    ensures SameOutside(m, m2, lo, hi)
  {
  }

  /** The header of a blob whose blocks follow one another. */
  function Packed(h: Header, n: int): Header {
    Header(h.total, HEADER_SIZE, HEADER_SIZE + n, h.sizeStruct, HEADER_SIZE + n + h.sizeStruct, h.sizeStrings)
  }

  function PackedSize(h: Header, n: int): int { HEADER_SIZE + n + h.sizeStruct + h.sizeStrings }

  /** When the blocks can be moved one after the other without one overwriting another that is still to be moved. */
  predicate SafeToPack(f: int, h: Header, n: int, to: int) {
    || to + PackedSize(h, n) <= f || f + h.total <= to
    || (to == f && InOrder(h, n))
  }

  /** _fdt_packblocks */
  method PackBlocks(m: seq<byte>, f: int, h: Header, n: int, to: int) returns (m': seq<byte>)
    requires BlobOk(m, f, h, n) && 0 <= to && to + PackedSize(h, n) <= |m| && SafeToPack(f, h, n, to)
    ensures |m'| == |m|
    ensures BlobOk(m', to, Packed(h, n).(total := PackedSize(h, n)), n)
    ensures ContentsOf(m', to, Packed(h, n).(total := PackedSize(h, n)), n) == ContentsOf(m, f, h, n)
    ensures SameOutside(m, m', to, to + PackedSize(h, n))
  {
    var m1 := MoveBlock(m, to + HEADER_SIZE, f + h.offReserve, n);
    var m2 := MoveBlock(m1, to + HEADER_SIZE + n, f + h.offStruct, h.sizeStruct);
    m' := MoveBlock(m2, to + HEADER_SIZE + n + h.sizeStruct, f + h.offStrings, h.sizeStrings);
    AllPacked(m, m1, m2, m', f, h, n, to);
    PackedInside(m, m1, m2, m', f, h, n, to, to + PackedSize(h, n));
  }

  /** memmove */
  method MoveBlock(m: seq<byte>, to: int, from: int, n: int) returns (m': seq<byte>)
    requires 0 <= n && 0 <= from <= |m| - n && 0 <= to <= |m| - n
    ensures |m'| == |m| && IsMoved(m, m', to, from, n)
  {
    MovedAt(m, to, from, n);
    m' := Moved(m, to, from, n);
  }

  /** The contents by the addresses of the blocks. */
  lemma ContentsAre(m: seq<byte>, at: int, h: Header, n: int, r: int, s: int, t: int)
    requires BlobOk(m, at, h, n) && r == at + h.offReserve && s == at + h.offStruct && t == at + h.offStrings
    ensures ContentsOf(m, at, h, n) == Contents(m[r..r + n], m[s..s + h.sizeStruct], m[t..t + h.sizeStrings])
  {
  }

  lemma AllPacked(m: seq<byte>, m1: seq<byte>, m2: seq<byte>, m': seq<byte>, f: int, h: Header, n: int, to: int)
    requires BlobOk(m, f, h, n) && 0 <= to && to + PackedSize(h, n) <= |m| && SafeToPack(f, h, n, to)
    requires ThreeMoves(m, m1, m2, m', f, h, n, to)
    requires |m'| == |m|
    ensures BlobOk(m', to, Packed(h, n).(total := PackedSize(h, n)), n)
    ensures ContentsOf(m', to, Packed(h, n).(total := PackedSize(h, n)), n) == ContentsOf(m, f, h, n)
  {
    var a, b, c := to + HEADER_SIZE, to + HEADER_SIZE + n, to + HEADER_SIZE + n + h.sizeStruct;
    var r, s, t := f + h.offReserve, f + h.offStruct, f + h.offStrings;
    SafeMoves(f, h, n, to, m, a, b, c, s, t);
    ThreeBlocks(m, m1, m2, m', a, b, c, r, s, t, n, h.sizeStruct, h.sizeStrings);
    PackedOk(m, f, h, n, m', to);
    PackedContents(m, f, h, n, m', to, a, b, c, r, s, t);
  }

  /** No block is moved over one that is still to be moved. */
  lemma SafeMoves(f: int, h: Header, n: int, to: int, m: seq<byte>, a: int, b: int, c: int, s: int, t: int)
    requires BlobOk(m, f, h, n) && 0 <= to && SafeToPack(f, h, n, to)
    requires a == to + HEADER_SIZE && b == a + n && c == b + h.sizeStruct && s == f + h.offStruct
    requires t == f + h.offStrings
    ensures (b <= s || s + h.sizeStruct <= a) && (b <= t || t + h.sizeStrings <= a)
    ensures (c <= t || t + h.sizeStrings <= b)
  {
  }

  lemma PackedContents(m: seq<byte>, f: int, h: Header, n: int, m': seq<byte>, to: int, a: int, b: int, c: int, r: int,
                       s: int, t: int)
    requires BlobOk(m, f, h, n) && BlobOk(m', to, Packed(h, n).(total := PackedSize(h, n)), n)
    requires a == to + HEADER_SIZE && b == a + n && c == b + h.sizeStruct && r == f + h.offReserve
    requires s == f + h.offStruct && t == f + h.offStrings
    requires m'[a..a + n] == m[r..r + n] && m'[b..b + h.sizeStruct] == m[s..s + h.sizeStruct]
    requires m'[c..c + h.sizeStrings] == m[t..t + h.sizeStrings]
    ensures ContentsOf(m', to, Packed(h, n).(total := PackedSize(h, n)), n) == ContentsOf(m, f, h, n)
  {
    ContentsAre(m, f, h, n, r, s, t);
    ContentsAre(m', to, Packed(h, n).(total := PackedSize(h, n)), n, a, b, c);
  }

  lemma PackedOk(m: seq<byte>, f: int, h: Header, n: int, m': seq<byte>, to: int)
    requires BlobOk(m, f, h, n) && 0 <= to && to + PackedSize(h, n) <= |m'|
    ensures BlobOk(m', to, Packed(h, n).(total := PackedSize(h, n)), n)
  {
  }

  lemma PackedInside(m: seq<byte>, m1: seq<byte>, m2: seq<byte>, m': seq<byte>, f: int, h: Header, n: int, to: int,
                     end: int)
    requires ThreeMoves(m, m1, m2, m', f, h, n, to) && end == to + PackedSize(h, n) && 0 <= n
    requires 0 <= h.sizeStruct && 0 <= h.sizeStrings
    ensures SameOutside(m, m', to, end)
  {
    MovedInside(m, m1, to + HEADER_SIZE, f + h.offReserve, n, to, end);
    MovedInside(m1, m2, to + HEADER_SIZE + n, f + h.offStruct, h.sizeStruct, to, end);
    MovedInside(m2, m', to + HEADER_SIZE + n + h.sizeStruct, f + h.offStrings, h.sizeStrings, to, end);
    SameTwice(m, m1, m2, to, end, to, end, to, end);
    SameTwice(m, m2, m', to, end, to, end, to, end);
  }

  ghost predicate ThreeMoves(m: seq<byte>, m1: seq<byte>, m2: seq<byte>, m': seq<byte>, f: int, h: Header, n: int,
                             to: int) {
    && IsMoved(m, m1, to + HEADER_SIZE, f + h.offReserve, n)
    && IsMoved(m1, m2, to + HEADER_SIZE + n, f + h.offStruct, h.sizeStruct)
    && IsMoved(m2, m', to + HEADER_SIZE + n + h.sizeStruct, f + h.offStrings, h.sizeStrings)
  }

  /** Three blocks moved one after the other, none over one that is still to be moved. */
  lemma ThreeBlocks(m: seq<byte>, m1: seq<byte>, m2: seq<byte>, m': seq<byte>, a: int, b: int, c: int, r: int, s: int,
                    t: int, n: int, k: int, l: int)
    requires IsMoved(m, m1, a, r, n) && IsMoved(m1, m2, b, s, k) && IsMoved(m2, m', c, t, l)
    requires b == a + n && c == b + k
    requires (b <= s || s + k <= a) && (b <= t || t + l <= a) && (c <= t || t + l <= b)
    ensures Within(m', a, n) && Within(m', b, k) && Within(m', c, l) && Within(m, r, n) && Within(m, s, k)
    ensures Within(m, t, l)
    ensures m'[a..a + n] == m[r..r + n] && m'[b..b + k] == m[s..s + k] && m'[c..c + l] == m[t..t + l]
  {
    BlockMoved(m, m1, a, r, n);
    BlockMoved(m1, m2, b, s, k);
    BlockMoved(m2, m', c, t, l);
    BlockKept(m1, m2, b, s, k, a, n);
    BlockKept(m2, m', c, t, l, a, n);
    BlockKept(m, m1, a, r, n, s, k);
    BlockKept(m2, m', c, t, l, b, k);
    BlockKept(m, m1, a, r, n, t, l);
    BlockKept(m1, m2, b, s, k, t, l);
  }

  /** When fdt_open_into can put blocks in order: there is room for them in the buffer beside the old blob. */
  predicate CanReorder(f: int, h: Header, b: int, size: int, n: int) {
    && PackedSize(h, n) <= size
    && (b + PackedSize(h, n) <= f || f + h.total <= b || f + h.total + PackedSize(h, n) <= b + size)
  }

  /** When fdt_open_into succeeds. */
  predicate CanOpen(f: int, h: Header, b: int, size: int, n: int) {
    if InOrder(h, n) then h.total <= size else CanReorder(f, h, b, size, n)
  }

  /** When a blob can be opened into a buffer.  One whose blocks are in order is copied as it is.  Any other is packed,
      at the start of the buffer if that does not overlap the blob, else right behind the blob; so it never goes into a
      buffer smaller than its packed size, and always into one that is apart from it and no smaller. */
  lemma OpensExactly(f: int, h: Header, b: int, size: int, n: int)
    requires 0 <= n && 0 <= h.sizeStruct && 0 <= h.sizeStrings
    ensures
      var packed := 40 + n + h.sizeStruct + h.sizeStrings;
      var ordered := 40 <= h.offReserve <= h.offStruct - n && h.offStruct + h.sizeStruct <= h.offStrings
                     && h.offStrings + h.sizeStrings <= h.total;
      var ahead, behind := b + packed <= f || f + h.total <= b, f + h.total + packed <= b + size;
      && (ordered ==> (CanOpen(f, h, b, size, n) <==> h.total <= size))
      && (!ordered ==> (CanOpen(f, h, b, size, n) <==> packed <= size && (ahead || behind)))
      && (CanOpen(f, h, b, size, n) ==> packed <= size)
      && (packed <= size && h.total <= size && (b + size <= f || f + h.total <= b) ==> CanOpen(f, h, b, size, n))
  {
    assert InOrder(h, n) ==> 40 + n + h.sizeStruct + h.sizeStrings <= h.total;
  }

  /** The offset behind the END tag, or the error that reading comes to; none if reading does not end. */
  function SizeByTags(s: seq<byte>, cur: int): (r: Option<int>)
    decreases |s| - cur
  {
    var t := TagAt(s, cur);
    if t.tag == END then Some(t.next) else if t.next == cur then None else SizeByTags(s, t.next)
  }

  /** Reading ends unless a property makes no progress. */
  lemma {:induction false} SizeIsFound(s: seq<byte>, cur: int)
    requires NoneStalls(s)
    ensures SizeByTags(s, cur) != None
    decreases |s| - cur
  {
    var t := TagAt(s, cur);
    if t.tag != END { SizeIsFound(s, t.next); }
  }

  /** The loop of fdt_open_into over the tags of an old blob, where it ends. */
  method FindSize(s: seq<byte>) returns (r: int)
    requires SizeByTags(s, 0) != None
    ensures Some(r) == SizeByTags(s, 0)
  {
    r := 0;
    while true
      invariant SizeByTags(s, r) == SizeByTags(s, 0)
      decreases |s| - r
    {
      var tag;
      tag, r := NextTag(s, r);
      if tag == END { return; }
    }
  }

  /** The size of the structure block: the header's word from version 17 on, and found by its tags before. */
  function StructSize(m: seq<byte>, f: int, version: int, h: Header): int
    requires Sizable(m, f, version, h)
  {
    if version >= 17 then h.sizeStruct else SizeByTags(m[f + h.offStruct..], 0).value
  }

  /** The structure block is in memory, and the tags of an old one can be read to an end. */
  predicate Sizable(m: seq<byte>, f: int, version: int, h: Header) {
    0 <= f + h.offStruct <= |m| && (version < 17 ==> SizeByTags(m[f + h.offStruct..], 0) != None)
  }

  function Sized(m: seq<byte>, f: int, version: int, h: Header): Header
    requires Sizable(m, f, version, h)
  {
    h.(sizeStruct := StructSize(m, f, version, h))
  }

  /** Reading the tags from an offset on comes to the size n. */
  ghost predicate Reaches(s: seq<byte>, cur: int, n: int) {
    forall key: Key :: Opens(key) && key == OfTree ==> SizeByTags(s, cur) == Some(n)
  }

  lemma ReachesIs(s: seq<byte>, cur: int, n: int)
    ensures Reaches(s, cur, n) <==> SizeByTags(s, cur) == Some(n)
  {
    assert Opens(OfTree);
  }

  /** Tokens up to an END tag are as long as their tags say. */
  lemma {:induction false} SizeOfTokens(s: seq<byte>, cur: int, ts: seq<Token>, n: int)
    requires 0 <= cur && Aligned(cur) && End !in ts && AllOk(ts) && Holds(s, cur, EncodeAll(ts) + Word(END))
    requires n == cur + |EncodeAll(ts)| + 4
    ensures Reaches(s, cur, n)
    decreases |ts|
  {
    if ts == [] {
      NothingBetween(Word(END), []);
      SizeAtEnd(s, cur, n);
    } else {
      var next, rest := cur + |Encode(ts[0])|, EncodeAll(ts[1..]);
      Assoc(Encode(ts[0]), rest, Word(END));
      TokenPassed(s, cur, ts[0], rest + Word(END), next, n);
      SizeOfTokens(s, next, ts[1..], n);
    }
  }

  lemma SizeAtEnd(s: seq<byte>, cur: int, n: int)
    requires 0 <= cur && Aligned(cur) && Holds(s, cur, Word(END)) && n == cur + 4
    ensures Reaches(s, cur, n)
  {
    TagAtToken(s, cur, End);
    ReachesIs(s, cur, n);
  }

  /** The block of a tree, which the editor keeps well formed, has the size of its tokens with the END tag. */
  lemma SizeOfTree(s: seq<byte>, strings: seq<byte>, root: Node, ts: seq<Token>)
    requires TreeOk(s, strings, root) && ts == Flatten(root)
    ensures AllOk(ts) && SizeByTags(s, 0) == Some(|EncodeAll(ts)| + 4)
  {
    var n := TreeReaches(s, strings, root, ts);
    ReachesIs(s, 0, n);
  }

  lemma TreeReaches(s: seq<byte>, strings: seq<byte>, root: Node, ts: seq<Token>) returns (n: int)
    requires TreeOk(s, strings, root) && ts == Flatten(root)
    ensures AllOk(ts) && n == |EncodeAll(ts)| + 4 && Reaches(s, 0, n)
  {
    TreeBytes(s, strings, root, ts);
    NoEndInNode(root);
    n := |EncodeAll(ts)| + 4;
    SizeOfTokens(s, 0, ts, n);
  }

  lemma TreeBytes(s: seq<byte>, strings: seq<byte>, root: Node, ts: seq<Token>)
    requires TreeOk(s, strings, root) && ts == Flatten(root)
    ensures AllOk(ts) && Holds(s, 0, EncodeAll(ts) + Word(END))
  {
    OpenTree(s, strings, root);
    EncodeLast(ts, End);
  }

  lemma TokenPassed(s: seq<byte>, cur: int, t: Token, rest: seq<byte>, next: int, n: int)
    requires 0 <= cur && Aligned(cur) && TokenOk(t) && t != End && next == cur + |Encode(t)|
    requires Holds(s, cur, Encode(t) + rest)
    ensures Aligned(next) && Holds(s, next, rest) && (Reaches(s, next, n) ==> Reaches(s, cur, n))
  {
    HoldsParts(s, cur, Encode(t), rest);
    TagAtToken(s, cur, t);
    EncodeAligned(t);
    AlignedSum(cur, |Encode(t)|, next);
    ReachesIs(s, next, n);
    ReachesIs(s, cur, n);
  }

  /** Equal bytes are the same reserve map. */
  lemma SameReserve(m: seq<byte>, at: int, m': seq<byte>, at': int, count: nat, n: int)
    requires ReserveMap(m, at, count) && n == ENTRY * (count + 1) && 0 <= at' && at + n <= |m| && at' + n <= |m'|
    requires m'[at'..at' + n] == m[at..at + n]
    ensures ReserveMap(m', at', count)
  {
    forall i | 0 <= i <= count ensures EntryAt(m', at', i) == EntryAt(m, at, i) { SameEntry(m, at, m', at', i, n); }
    forall i | 0 <= i < count ensures EntryAt(m', at', i) { assert EntryAt(m, at, i)
      && EntryAt(m', at', i) == EntryAt(m, at, i); }
    assert EntryAt(m', at', count) == EntryAt(m, at, count);
  }

  lemma SameMap(m: seq<byte>, f: int, h: Header, m': seq<byte>, b: int, h': Header, count: nat, n: int)
    requires ReserveMap(m, f + h.offReserve, count) && n == ENTRY * (count + 1) && BlobOk(m, f, h, n)
    requires BlobOk(m', b, h', n)
    requires ContentsOf(m', b, h', n) == ContentsOf(m, f, h, n)
    ensures ReserveMap(m', b + h'.offReserve, count)
  {
    SameReserve(m, f + h.offReserve, m', b + h'.offReserve, count, n);
  }

  lemma SameEntry(m: seq<byte>, at: int, m': seq<byte>, at': int, i: nat, n: int)
    requires 0 <= at && 0 <= at' && ENTRY * (i + 1) <= n && at + n <= |m| && at' + n <= |m'|
    requires m'[at'..at' + n] == m[at..at + n]
    ensures EntryAt(m', at', i) == EntryAt(m, at, i)
  {
    SameWord(m, at, m', at', ENTRY * i + 8, n);
    SameWord(m, at, m', at', ENTRY * i + 12, n);
  }

  lemma SameWord(m: seq<byte>, at: int, m': seq<byte>, at': int, k: int, n: int)
    requires 0 <= at && 0 <= at' && 0 <= k && k + 4 <= n && at + n <= |m| && at' + n <= |m'|
    requires m'[at'..at' + n] == m[at..at + n]
    ensures WordAt(m', at' + k) == WordAt(m, at + k)
  {
    var x, y := m[at..at + n], m'[at'..at' + n];
    assert x[k] == y[k] && x[k + 1] == y[k + 1] && x[k + 2] == y[k + 2] && x[k + 3] == y[k + 3];
  }

  class Memory {
    var cells: seq<byte>

    /** fdt_pack: the blob keeps its contents and loses its gaps. */
    method Pack(f: int, version: int, h: Header, ghost count: nat) returns (err: int, h': Header, ghost n: int)
      requires BlobOk(cells, f, h, ENTRY * (count + 1)) && ReserveMap(cells, f + h.offReserve, count)
      requires InOrder(h, ENTRY) ==> InOrder(h, ENTRY * (count + 1))
      modifies this
      ensures n == ENTRY * (count + 1) && |cells| == old(|cells|)
      ensures err == if version < 17 then ERR_BADVERSION else if InOrder(h, ENTRY) then 0 else ERR_BADLAYOUT
      ensures err != 0 ==> cells == old(cells) && h' == h
      ensures BlobOk(cells, f, h', n) && ContentsOf(cells, f, h', n) == old(ContentsOf(cells, f, h, n))
      ensures err == 0 ==> InOrder(h', n) && h'.total == h'.offStrings + h'.sizeStrings == PackedSize(h, n) <= h.total
      ensures err == 0 ==>
        && h'.offReserve == 40 && h'.offStruct == 40 + n && h'.offStrings == 40 + n + h.sizeStruct
        && h'.total == 40 + n + h.sizeStruct + h.sizeStrings
        && h'.sizeStruct == h.sizeStruct && h'.sizeStrings == h.sizeStrings
      ensures SameOutside(old(cells), cells, f, f + h'.total)
    {
      n := ENTRY * (count + 1);
      if version < 17 { return ERR_BADVERSION, h, n; }
      if !InOrder(h, ENTRY) { return ERR_BADLAYOUT, h, n; }
      err := 0;
      var entries := NumReserve(cells, f + h.offReserve, count);
      n := ENTRY * (entries + 1);
      cells := PackBlocks(cells, f, h, ENTRY * (entries + 1), f);
      h' := Packed(h, ENTRY * (entries + 1)).(total := PackedSize(h, ENTRY * (entries + 1)));
    }

    /** fdt_open_into: into a buffer anywhere in memory, the blob's own place included. The size of an old blob's
        structure block is found by reading its tags. */
    method OpenInto(f: int, version: int, h: Header, b: int, size: int, ghost count: nat)
      returns (err: int, h': Header, ghost n: int)
      requires 0 <= f && 0 <= h.offStruct && Sizable(cells, f, version, h) && 0 <= b && 0 <= size && b + size <= |cells|
      requires StructSize(cells, f, version, h) >= 0 ==>
        BlobOk(cells, f, Sized(cells, f, version, h), ENTRY * (count + 1))
      requires ReserveMap(cells, f + h.offReserve, count)
      modifies this
      ensures n == ENTRY * (count + 1) && |cells| == old(|cells|)
      ensures old(StructSize(cells, f, version, h)) < 0 ==>
        err == old(StructSize(cells, f, version, h)) && cells == old(cells)
      ensures old(StructSize(cells, f, version, h)) >= 0 ==>
        err == if CanOpen(f, old(Sized(cells, f, version, h)), b, size, n) then 0 else ERR_NOSPACE
      ensures err == 0 ==>
        && BlobOk(cells, b, h', n) && InOrder(h', n) && h'.total == size
        && ContentsOf(cells, b, h', n) == old(ContentsOf(cells, f, Sized(cells, f, version, h), n))
        && PackedSize(h', n) == PackedSize(old(Sized(cells, f, version, h)), n)
      ensures err != 0 ==> cells == old(cells)
      ensures SameOutside(old(cells), cells, b, b + size)
    {
      var ss := h.sizeStruct;
      if version < 17 { ss := FindSize(cells[f + h.offStruct..]); }
      if ss < 0 {
        n := ENTRY * (count + 1);
        return ss, h, n;
      }
      err, h', n := OpenSized(f, h.(sizeStruct := ss), b, size, count);
    }

    /** The same, with the size of the structure block known. */
    method OpenSized(f: int, h: Header, b: int, size: int, ghost count: nat)
      returns (err: int, h': Header, ghost n: int)
      requires BlobOk(cells, f, h, ENTRY * (count + 1)) && ReserveMap(cells, f + h.offReserve, count)
      requires 0 <= b && 0 <= size && b + size <= |cells|
      modifies this
      ensures n == ENTRY * (count + 1) && |cells| == old(|cells|) && (err == 0 || err == ERR_NOSPACE)
      ensures err == 0 ==>
        && BlobOk(cells, b, h', n) && InOrder(h', n) && h'.total == size
        && ContentsOf(cells, b, h', n) == old(ContentsOf(cells, f, h, n))
        && PackedSize(h', n) == PackedSize(h, n)
      ensures err != 0 ==> cells == old(cells)
      ensures err == 0 <==> CanOpen(f, h, b, size, n)
      ensures SameOutside(old(cells), cells, b, b + size)
    {
      var entries := NumReserve(cells, f + h.offReserve, count);
      var reserve := ENTRY * (entries + 1);
      n := reserve;
      h' := h;
      if InOrder(h, reserve) {
        if h.total > size { return ERR_NOSPACE, h, n; }
        cells := MoveBlob(cells, b, f, h, reserve);
        SameTwice(old(cells), cells, cells, b, b + size, b, b + h.total, b, b);
        Widened(cells, b, h, reserve, size);
        return 0, h.(total := size), n;
      }
      err := Reorder(f, h, b, size, reserve);
      if err == 0 { h' := Packed(h, reserve).(total := size); }
    }

    /** fdt_open_into and then fdt_pack, as at boot: the blob ends up packed at the start of the buffer, with its
        contents. */
    method OpenAndPack(f: int, version: int, h: Header, b: int, size: int, ghost count: nat)
      returns (err: int, h': Header, ghost n: int)
      requires 0 <= f && 0 <= h.offStruct && Sizable(cells, f, version, h) && 0 <= b && 0 <= size && b + size <= |cells|
      requires StructSize(cells, f, version, h) >= 0 ==>
        BlobOk(cells, f, Sized(cells, f, version, h), ENTRY * (count + 1))
      requires ReserveMap(cells, f + h.offReserve, count)
      modifies this
      ensures n == ENTRY * (count + 1) && |cells| == old(|cells|)
      ensures err == 0 ==> old(StructSize(cells, f, version, h)) >= 0
      ensures err == 0 ==>
        && BlobOk(cells, b, h', n) && InOrder(h', n) && h'.total == PackedSize(old(Sized(cells, f, version, h)), n)
        && ContentsOf(cells, b, h', n) == old(ContentsOf(cells, f, Sized(cells, f, version, h), n))
      ensures err != 0 ==> cells == old(cells)
      ensures SameOutside(old(cells), cells, b, b + size)
    {
      ghost var h0 := Sized(cells, f, version, h);
      err, h', n := OpenInto(f, version, h, b, size, count);
      if err != 0 { return; }
      ghost var m, h1 := cells, h';
      SameMap(old(cells), f, h0, m, b, h1, count, n);
      var e;
      e, h', n := Pack(b, 17, h', count);
      SameTwice(old(cells), m, cells, b, b + size, b, b + size, b, b + h'.total);
    }

    /** The part of fdt_open_into that puts the blocks in order. */
    method Reorder(f: int, h: Header, b: int, size: int, n: int) returns (err: int)
      requires BlobOk(cells, f, h, n) && 0 <= b && 0 <= size && b + size <= |cells|
      modifies this
      ensures |cells| == old(|cells|) && (err == 0 || err == ERR_NOSPACE)
      ensures err == 0 ==>
        && BlobOk(cells, b, Packed(h, n).(total := size), n)
        && ContentsOf(cells, b, Packed(h, n).(total := size), n) == old(ContentsOf(cells, f, h, n))
      ensures err != 0 ==> cells == old(cells)
      ensures err == 0 <==> CanReorder(f, h, b, size, n)
      ensures SameOutside(old(cells), cells, b, b + size)
    {
      var need := PackedSize(h, n);
      if size < need { return ERR_NOSPACE; }
      var tmp := b;
      if tmp + need > f && tmp < f + h.total {
        tmp := f + h.total;
        if tmp + need > b + size { return ERR_NOSPACE; }
      }
      var m := PackBlocks(cells, f, h, n, tmp);
      cells := MoveBlob(m, b, tmp, Packed(h, n).(total := need), n);
      SameTwice(old(cells), m, cells, b, b + size, tmp, tmp + need, b, b + need);
      Widened(cells, b, Packed(h, n).(total := need), n, size);
      err := 0;
    }
  }

  /** A larger total size leaves the contents. */
  lemma Widened(m: seq<byte>, at: int, h: Header, n: int, size: int)
    requires BlobOk(m, at, h, n) && h.total <= size && at + size <= |m|
    ensures BlobOk(m, at, h.(total := size), n) && ContentsOf(m, at, h.(total := size), n) == ContentsOf(m, at, h, n)
  {
  }

  /** memmove of a whole blob. */
  method MoveBlob(m: seq<byte>, to: int, from: int, h: Header, n: int) returns (m': seq<byte>)
    requires BlobOk(m, from, h, n) && 0 <= to && to + h.total <= |m|
    ensures |m'| == |m| && BlobOk(m', to, h, n) && ContentsOf(m', to, h, n) == ContentsOf(m, from, h, n)
    ensures SameOutside(m, m', to, to + h.total)
  {
    m' := MoveBlock(m, to, from, h.total);
    AllMoved(m, m', to, from, h, n);
    MovedInside(m, m', to, from, h.total, to, to + h.total);
  }

  /** Moving a whole blob moves its contents. */
  lemma AllMoved(m: seq<byte>, m': seq<byte>, to: int, from: int, h: Header, n: int)
    requires BlobOk(m, from, h, n) && IsMoved(m, m', to, from, h.total)
    ensures BlobOk(m', to, h, n) && ContentsOf(m', to, h, n) == ContentsOf(m, from, h, n)
  {
    PartMoved(m, m', to, from, h.total, h.offReserve, n);
    PartMoved(m, m', to, from, h.total, h.offStruct, h.sizeStruct);
    PartMoved(m, m', to, from, h.total, h.offStrings, h.sizeStrings);
  }

  lemma PartMoved(m: seq<byte>, m': seq<byte>, to: int, from: int, total: int, x: int, k: int)
    requires IsMoved(m, m', to, from, total) && 0 <= x && 0 <= k && x + k <= total
    ensures Within(m', to + x, k) && Within(m, from + x, k) && m'[to + x..to + x + k] == m[from + x..from + x + k]
  {
    var u, v := m'[to + x..to + x + k], m[from + x..from + x + k];
    forall i | 0 <= i < k ensures u[i] == v[i] { assert u[i] == m'[to + x + i] && v[i] == m[from + x + i]; }
  }
}
