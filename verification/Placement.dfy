/**
 The placement of virtual addresses in init_mem_map (core_mmu.c): flat-mapped areas, which hold the
 secure kernel itself, keep their physical addresses, and the others are placed above or below them.
 */
module Placement {
  import opened Arith
  import opened Descriptors
  import opened PageTables

  const PGDIR := 0x10_0000
  const SMALL := 0x1000

  /** An area of the memory map; granule is its region_size. */
  datatype Area = Area(pa: int, size: int, granule: int, flat: bool, secure: bool)

  /** What the earlier passes of init_mem_map leave: sizes in whole granules; flat areas are the kernel's and secure. */
  predicate AreaOk(a: Area) {
    && a.pa >= 0 && a.size > 0 && (a.granule == PGDIR || a.granule == SMALL)
    && a.pa % a.granule == 0 && a.size % a.granule == 0 && (a.flat ==> a.secure)
  }

  ghost predicate AreasOk(areas: seq<Area>, start: int, room: int) {
    && start >= 0 && room >= 0
    && (forall i :: 0 <= i < |areas| ==> AreaOk(areas[i]))
    && (forall i ::
      0 <= i < |areas| && areas[i].flat ==> start <= areas[i].pa && areas[i].pa + areas[i].size <= start + room)
    && (forall i, j ::
      0 <= i < j < |areas| && areas[i].flat && areas[j].flat ==>
      Apart(areas[i].pa, areas[i].size, areas[j].pa, areas[j].size))
  }

  predicate Apart(a: int, n: int, b: int, m: int) { a + n <= b || b + m <= a }

  /** The 1 MiB slots that two ranges touch do not meet. */
  predicate SlotsApart(a: int, n: int, b: int, m: int) {
    RoundUp(a + n, PGDIR) <= RoundDown(b, PGDIR) || RoundUp(b + m, PGDIR) <= RoundDown(a, PGDIR)
  }

  lemma SlotsApartIsApart(a: int, n: int, b: int, m: int)
    requires SlotsApart(a, n, b, m)
    ensures Apart(a, n, b, m)
  {
    RoundBounds(a);
    RoundBounds(b);
    RoundBounds(a + n);
    RoundBounds(b + m);
  }

  lemma RoundBounds(x: int)
    ensures x - PGDIR < RoundDown(x, PGDIR) <= x <= RoundUp(x, PGDIR) < x + PGDIR
    ensures RoundDown(x, PGDIR) % PGDIR == 0 && RoundUp(x, PGDIR) % PGDIR == 0
  {
    DivUnique(RoundDown(x, PGDIR), PGDIR, x / PGDIR, 0);
  }

  /** The result: no two areas overlap, secure and non-secure areas do not share a slot, and every area that was placed
      starts a slot. */
  ghost predicate Placed(areas: seq<Area>, va: seq<int>) {
    && |va| == |areas|
    && (forall i :: 0 <= i < |areas| ==> if areas[i].flat then va[i] == areas[i].pa else va[i] % PGDIR == 0)
    && (forall i, j :: 0 <= i < j < |areas| ==> PairOk(areas[i], va[i], areas[j], va[j]))
  }

  predicate PairOk(a: Area, x: int, b: Area, y: int) {
    Apart(x, a.size, y, b.size) && (a.secure != b.secure ==> SlotsApart(x, a.size, y, b.size))
  }

  lemma RoundUpLe(x: int, y: int)
    requires y % PGDIR == 0 && x <= y
    ensures RoundUp(x, PGDIR) <= y
  {
    var z := x + (PGDIR - 1);
    assert z == z / PGDIR * PGDIR + z % PGDIR && y == y / PGDIR * PGDIR;
  }

  lemma RoundDownGe(x: int, y: int)
    requires y % PGDIR == 0 && y <= x
    ensures y <= RoundDown(x, PGDIR)
  {
    assert x == x / PGDIR * PGDIR + x % PGDIR && y == y / PGDIR * PGDIR;
  }

  /** A range that ends below a slot boundary and one that starts at or above it. */
  lemma SplitBy(a: int, n: int, y: int, b: int, m: int)
    requires y % PGDIR == 0 && a + n <= y <= b
    ensures SlotsApart(a, n, b, m)
  {
    RoundUpLe(a + n, y);
    RoundDownGe(b, y);
  }

  // ---------------------------------------------------------------- the two layouts

  /** The lowest flat-mapped address, as the first loop computes it. */
  method LowestFlat(areas: seq<Area>, start: int, room: int) returns (low: int)
    requires AreasOk(areas, start, room)
    ensures low <= 0xFFFF_FFFF && forall i :: 0 <= i < |areas| && areas[i].flat ==> low <= areas[i].pa
    ensures low < 0xFFFF_FFFF ==> start <= low
  {
    low := 0xFFFF_FFFF;
    var i := 0;
    while i < |areas|
      invariant 0 <= i <= |areas| && low <= 0xFFFF_FFFF && (low < 0xFFFF_FFFF ==> start <= low)
      invariant forall k :: 0 <= k < i && areas[k].flat ==> low <= areas[k].pa
    {
      if areas[i].flat {
        var down := RoundDown(areas[i].pa, areas[i].granule);
        low := if down < low then down else low;
      }
      i := i + 1;
    }
  }

  /** Areas placed so far are as they should be among themselves; the others are not placed yet. */
  ghost predicate PlacedUpto(areas: seq<Area>, va: seq<int>, n: int) {
    && |va| == |areas| && 0 <= n <= |areas|
    && (forall i ::
      0 <= i < |areas| && Done(areas, i, n) ==> if areas[i].flat then va[i] == areas[i].pa else va[i] % PGDIR == 0)
    && (forall i, j ::
      0 <= i < j < |areas| && Done(areas, i, n) && Done(areas, j, n) ==> PairOk(areas[i], va[i], areas[j], va[j]))
  }

  predicate Done(areas: seq<Area>, i: int, n: int)
    requires 0 <= i < |areas|
  {
    areas[i].flat || i < n
  }

  lemma FlatsPlaced(areas: seq<Area>, start: int, room: int)
    requires AreasOk(areas, start, room)
    ensures PlacedUpto(areas, seq(|areas|, i requires 0 <= i < |areas| => areas[i].pa), 0)
  {
  }

  lemma FlatNext(areas: seq<Area>, va: seq<int>, n: int)
    requires PlacedUpto(areas, va, n) && n < |areas| && areas[n].flat
    ensures PlacedUpto(areas, va, n + 1)
  {
    forall i | 0 <= i < |areas|
      && Done(areas, i, n + 1) ensures if areas[i].flat then va[i] == areas[i].pa else va[i] % PGDIR == 0 {
      assert Done(areas, i, n);
    }
    forall i, j | 0 <= i < j < |areas| && Done(areas, i, n + 1) && Done(areas, j, n + 1)
      ensures PairOk(areas[i], va[i], areas[j], va[j])
    {
      assert Done(areas, i, n) && Done(areas, j, n);
    }
  }

  /** One more area, in order with respect to all placed ones. */
  lemma OneMorePlaced(areas: seq<Area>, va: seq<int>, n: int, x: int)
    requires PlacedUpto(areas, va, n) && n < |areas| && !areas[n].flat && x % PGDIR == 0
    requires forall i :: 0 <= i < |areas| && i != n && Done(areas, i, n) ==> PairOk(areas[i], va[i], areas[n], x)
    ensures PlacedUpto(areas, va[n := x], n + 1)
  {
    var va' := va[n := x];
    forall i | 0 <= i < |areas| && Done(areas, i, n + 1) && i != n
      ensures if areas[i].flat then va'[i] == areas[i].pa else va'[i] % PGDIR == 0
    {
      assert Done(areas, i, n);
    }
    forall i, j | 0 <= i < j < |areas| && Done(areas, i, n + 1) && Done(areas, j, n + 1)
      ensures PairOk(areas[i], va'[i], areas[j], va'[j])
    {
      assert i != n ==> Done(areas, i, n);
      assert j != n ==> Done(areas, j, n);
      if i == n { PairSwaps(areas[j], va[j], areas[n], x); }
    }
  }

  lemma PairSwaps(a: Area, x: int, b: Area, y: int)
    requires PairOk(a, x, b, y)
    ensures PairOk(b, y, a, x)
  {
  }

  /** A slot boundary behind all placed areas. */
  lemma AfterAll(areas: seq<Area>, va: seq<int>, n: int, cur: int, x: int)
    requires |va| == |areas| && 0 <= n < |areas| && cur <= x && x % PGDIR == 0
    requires forall i :: 0 <= i < |areas| && Done(areas, i, n) ==> va[i] + areas[i].size <= cur
    ensures forall i :: 0 <= i < |areas| && i != n && Done(areas, i, n) ==> PairOk(areas[i], va[i], areas[n], x)
  {
    forall i | 0 <= i < |areas| && i != n && Done(areas, i, n) ensures PairOk(areas[i], va[i], areas[n], x) {
      SplitBy(va[i], areas[i].size, x, x, areas[n].size);
      SlotsApartIsApart(va[i], areas[i].size, x, areas[n].size);
    }
  }

  /** Room enough for the areas that are placed: their sizes, and two slots for the rounding of each. */
  function Span(areas: seq<Area>): (n: int)
  {
    if areas == [] then 0
    else Span(areas[..|areas| - 1]) + (var a := areas[|areas| - 1]; if a.flat then 0 else a.size + 2 * PGDIR)
  }

  lemma SpanNext(areas: seq<Area>, n: nat)
    requires n < |areas|
    ensures Span(areas[..n + 1]) == Span(areas[..n]) + if areas[n].flat then 0 else areas[n].size + 2 * PGDIR
  {
    assert areas[..n + 1][..n] == areas[..n];
  }

  /** No area that is placed lies below lo or ends above hi. */
  ghost predicate Between(areas: seq<Area>, va: seq<int>, n: nat, lo: int, hi: int) {
    |va| == |areas| && n <= |areas|
      && forall i :: 0 <= i < n && !areas[i].flat ==> lo <= va[i] && va[i] + areas[i].size <= hi
  }

  /** The slot of one area from the address cur on; a change between secure and non-secure areas goes up to a boundary
      first. */
  method SlotAbove(a: Area, cur: int, secure: bool) returns (x: int, secure': bool)
    requires a.granule == PGDIR || a.granule == SMALL
    ensures x % PGDIR == 0 && cur <= x <= cur + 2 * PGDIR && secure' == a.secure
  {
    var from := cur;
    secure' := secure;
    if secure != a.secure {
      secure' := !secure;
      RoundBounds(cur);
      from := RoundUp(cur, PGDIR);
    }
    x := RoundUp(RoundUp(from, a.granule), PGDIR);
    UpTwice(from, a.granule);
  }

  /** The layout above: each area starts in a slot of its own, after all placed ones. */
  method PlaceAbove(areas: seq<Area>, start: int, room: int, low: int) returns (va: seq<int>)
    requires AreasOk(areas, start, room) && start <= low
    ensures Placed(areas, va) && Between(areas, va, |areas|, low + room, low + room + PGDIR + Span(areas))
  {
    va := seq(|areas|, i requires 0 <= i < |areas| => areas[i].pa);
    FlatsPlaced(areas, start, room);
    var cur := RoundUp(low + room, PGDIR);
    var secure := true;
    RoundBounds(low + room);
    var n := 0;
    while n < |areas|
      invariant 0 <= n <= |areas| && UpTo(areas, va, n, low + room, cur)
    {
      if areas[n].flat {
        FlatAbove(areas, va, n, low + room, cur);
      } else {
        var x;
        x, secure := SlotAbove(areas[n], cur, secure);
        OneMoreAbove(areas, start, room, va, n, low + room, cur, x);
        va := va[n := x];
        cur := x + areas[n].size;
      }
      n := n + 1;
    }
    assert areas[..n] == areas;
    AllDone(areas, va);
  }

  /** The first n areas are placed from the address from up to cur. */
  ghost predicate UpTo(areas: seq<Area>, va: seq<int>, n: int, from: int,
    cur: int) { ReachUp(areas, va, n, from, cur) == true }

  ghost predicate ReachUp(areas: seq<Area>, va: seq<int>, n: int, from: int, cur: int) {
    && PlacedUpto(areas, va, n) && (forall i :: 0 <= i < |areas| && Done(areas, i, n) ==> va[i] + areas[i].size <= cur)
    && from <= cur <= from + PGDIR + Span(areas[..n]) && Between(areas, va, n, from, cur)
  }

  lemma FlatAbove(areas: seq<Area>, va: seq<int>, n: int, from: int, cur: int)
    requires UpTo(areas, va, n, from, cur) && n < |areas| && areas[n].flat
    ensures UpTo(areas, va, n + 1, from, cur)
  {
    SpanNext(areas, n);
    FlatNext(areas, va, n);
  }

  lemma OneMoreAbove(areas: seq<Area>, start: int, room: int, va: seq<int>, n: int, from: int, cur: int, x: int)
    requires AreasOk(areas, start, room) && UpTo(areas, va, n, from, cur) && n < |areas| && !areas[n].flat
    requires x % PGDIR == 0 && cur <= x <= cur + 2 * PGDIR
    ensures UpTo(areas, va[n := x], n + 1, from, x + areas[n].size)
  {
    SpanNext(areas, n);
    AfterAll(areas, va, n, cur, x);
    OneMorePlaced(areas, va, n, x);
  }

  lemma AllDone(areas: seq<Area>, va: seq<int>)
    requires PlacedUpto(areas, va, |areas|)
    ensures Placed(areas, va)
  {
    forall i | 0 <= i < |areas| ensures if areas[i].flat then va[i] == areas[i].pa else va[i] % PGDIR == 0 {
      assert Done(areas, i, |areas|);
    }
    forall i, j | 0 <= i < j < |areas| ensures PairOk(areas[i], va[i], areas[j], va[j]) {
      assert Done(areas, i, |areas|) && Done(areas, j, |areas|);
    }
  }

  /** The granule divides the slot. */
  lemma UpTwice(x: int, granule: int)
    requires granule == PGDIR || granule == SMALL
    ensures x <= RoundUp(RoundUp(x, granule), PGDIR) < x + PGDIR && RoundUp(RoundUp(x, granule), PGDIR) % PGDIR == 0
  {
    RoundBounds(RoundUp(x, granule));
    RoundBounds(x);
    if granule == SMALL { SmallUp(x); } else { MultipleStays(RoundUp(x, PGDIR)); }
  }

  lemma SmallUp(x: int)
    ensures RoundUp(x, SMALL) <= RoundUp(x, PGDIR) && RoundUp(RoundUp(x, SMALL), PGDIR) == RoundUp(x, PGDIR)
  {
    var y, q := RoundUp(x, SMALL), (x + PGDIR - 1) / PGDIR;
    assert RoundUp(x, PGDIR) == q * PGDIR;
    assert y == (x + SMALL - 1) / SMALL * SMALL && x <= y < x + SMALL;
    assert y <= q * PGDIR by {
      assert q * PGDIR == q * 256 * SMALL && (x + SMALL - 1) / SMALL <= q * 256;
    }
    DivUnique(y + PGDIR - 1, PGDIR, q, y + PGDIR - 1 - q * PGDIR);
  }

  lemma MultipleStays(y: int)
    requires y % PGDIR == 0
    ensures RoundUp(y, PGDIR) == y && RoundDown(y, PGDIR) == y
  {
    DivUnique(y + PGDIR - 1, PGDIR, y / PGDIR, PGDIR - 1);
  }

  lemma DownTwice(x: int, granule: int)
    requires granule == PGDIR || granule == SMALL
    ensures x - PGDIR < RoundDown(RoundDown(x, granule), PGDIR) <= x
    ensures RoundDown(RoundDown(x, granule), PGDIR) % PGDIR == 0
  {
    RoundBounds(RoundDown(x, granule));
    RoundBounds(x);
    if granule == SMALL { SmallDown(x); } else { MultipleStays(RoundDown(x, PGDIR)); }
  }

  lemma SmallDown(x: int)
    ensures RoundDown(x, PGDIR) <= RoundDown(x, SMALL) && RoundDown(RoundDown(x, SMALL), PGDIR) == RoundDown(x, PGDIR)
  {
    var y, q := RoundDown(x, SMALL), x / PGDIR;
    assert RoundDown(x, PGDIR) == q * PGDIR && y == x / SMALL * SMALL;
    assert q * PGDIR <= y by { assert q * PGDIR == q * 256 * SMALL && q * 256 <= x / SMALL; }
    DivUnique(y, PGDIR, q, y - q * PGDIR);
  }

  /** A slot boundary in front of all placed areas; the lowest flat area may share its slot with secure ones. */
  lemma BeforeAll(areas: seq<Area>, va: seq<int>, n: int, cur: int, x: int)
    requires |va| == |areas| && 0 <= n < |areas| && !areas[n].flat && x + areas[n].size <= cur
    requires forall i :: 0 <= i < |areas| && Done(areas, i, n) ==> cur <= va[i]
    requires forall i :: 0 <= i < |areas| && areas[i].flat ==> areas[i].secure
    requires !areas[n].secure ==> cur % PGDIR == 0
    requires forall i :: 0 <= i < n && !areas[i].flat ==> va[i] % PGDIR == 0
    ensures forall i :: 0 <= i < |areas| && i != n && Done(areas, i, n) ==> PairOk(areas[i], va[i], areas[n], x)
  {
    forall i | 0 <= i < |areas| && i != n && Done(areas, i, n) ensures PairOk(areas[i], va[i], areas[n], x) {
      if areas[i].flat && !areas[n].secure {
        SplitBy(x, areas[n].size, cur, va[i], areas[i].size);
      } else if !areas[i].flat {
        SplitBy(x, areas[n].size, va[i], va[i], areas[i].size);
      }
    }
  }

  /** The slot of one area under the address cur; a change between secure and non-secure areas goes down to a boundary
      first. */
  method SlotBelow(a: Area, cur: int, secure: bool) returns (x: int, top: int, secure': bool)
    requires (a.granule == PGDIR || a.granule == SMALL) && (!secure ==> cur % PGDIR == 0)
    ensures x % PGDIR == 0 && cur - a.size - 2 * PGDIR <= x && x + a.size <= top <= cur
    ensures secure' == a.secure && (!a.secure ==> top % PGDIR == 0)
  {
    top, secure' := cur, secure;
    if secure != a.secure {
      secure' := !secure;
      RoundBounds(cur);
      top := RoundDown(cur, PGDIR);
    }
    x := RoundDown(RoundDown(top - a.size, a.granule), PGDIR);
    DownTwice(top - a.size, a.granule);
  }

  /** The layout below: only a secure area may end in the lowest flat area's slot. */
  method PlaceBelow(areas: seq<Area>, start: int, room: int, low: int) returns (va: seq<int>)
    requires AreasOk(areas, start, room) && forall i :: 0 <= i < |areas| && areas[i].flat ==> low <= areas[i].pa
    ensures Placed(areas, va) && Between(areas, va, |areas|, low - Span(areas), low)
  {
    va := seq(|areas|, i requires 0 <= i < |areas| => areas[i].pa);
    FlatsPlaced(areas, start, room);
    var cur := low;
    var secure := true;
    var n := 0;
    while n < |areas|
      invariant 0 <= n <= |areas| && DownTo(areas, va, n, cur, low) && (!secure ==> cur % PGDIR == 0)
    {
      if areas[n].flat {
        FlatBelow(areas, va, n, cur, low);
      } else {
        var x, top;
        x, top, secure := SlotBelow(areas[n], cur, secure);
        OneMoreBelow(areas, start, room, va, n, cur, low, x, top);
        va := va[n := x];
        cur := x;
      }
      n := n + 1;
    }
    assert areas[..n] == areas;
    AllDone(areas, va);
  }

  /** The first n areas are placed from the address low down to cur. */
  ghost predicate DownTo(areas: seq<Area>, va: seq<int>, n: int, cur: int,
    low: int) { ReachDown(areas, va, n, cur, low) == true }

  ghost predicate ReachDown(areas: seq<Area>, va: seq<int>, n: int, cur: int, low: int) {
    && PlacedUpto(areas, va, n) && (forall i :: 0 <= i < |areas| && Done(areas, i, n) ==> cur <= va[i])
    && low - Span(areas[..n]) <= cur <= low && Between(areas, va, n, cur, low)
  }

  lemma FlatBelow(areas: seq<Area>, va: seq<int>, n: int, cur: int, low: int)
    requires DownTo(areas, va, n, cur, low) && n < |areas| && areas[n].flat
    ensures DownTo(areas, va, n + 1, cur, low)
  {
    SpanNext(areas, n);
    FlatNext(areas, va, n);
  }

  lemma OneMoreBelow(areas: seq<Area>, start: int, room: int, va: seq<int>, n: int, cur: int, low: int, x: int,
                     top: int)
    requires AreasOk(areas, start, room) && DownTo(areas, va, n, cur, low) && n < |areas| && !areas[n].flat
    requires x % PGDIR == 0 && cur - areas[n].size - 2 * PGDIR <= x && x + areas[n].size <= top <= cur
    requires (!areas[n].secure ==> top % PGDIR == 0)
    ensures DownTo(areas, va[n := x], n + 1, x, low)
  {
    SpanNext(areas, n);
    NotYet(areas, va, n);
    BeforeAll(areas, va, n, top, x);
    OneMorePlaced(areas, va, n, x);
  }

  lemma NotYet(areas: seq<Area>, va: seq<int>, n: int)
    requires PlacedUpto(areas, va, n) && n < |areas|
    ensures forall i :: 0 <= i < n && !areas[i].flat ==> va[i] % PGDIR == 0
  {
    forall i | 0 <= i < n && !areas[i].flat ensures va[i] % PGDIR == 0 { assert Done(areas, i, n); }
  }

  /** The placement as a whole; RAM above 2 GiB has the other areas below it. Addresses are plain numbers here: they are
      those of the 32-bit code as long as the stated range lies within 32 bits. */
  method Place(areas: seq<Area>, start: int, room: int) returns (va: seq<int>, low: int)
    requires AreasOk(areas, start, room)
    ensures Placed(areas, va) && forall i :: 0 <= i < |areas| && areas[i].flat ==> low <= areas[i].pa
    ensures low > 0x8000_0000 ==> Between(areas, va, |areas|, low - Span(areas), low)
    ensures low <= 0x8000_0000 ==> Between(areas, va, |areas|, low + room, low + room + PGDIR + Span(areas))
  {
    low := LowestFlat(areas, start, room);
    if low > 0x8000_0000 {
      va := PlaceBelow(areas, start, room, low);
    } else {
      va := PlaceAbove(areas, start, room, low);
    }
  }

  /** The region that an area becomes. */
  function RegionOf(a: Area, va: int, attr: Attr): Region { Region(va, a.pa, a.size, attr) }

  /** An area that was placed and is mapped by pages keeps its addresses in order if and only if its physical address
      starts a slot; the placement does not look at that. */
  lemma PlacedIsLinear(areas: seq<Area>, va: seq<int>, i: int, attr: Attr)
    requires Placed(areas, va) && 0 <= i < |areas| && !areas[i].flat && areas[i].size > 0
    requires RegionOk(RegionOf(areas[i], va[i], attr))
    ensures var r := RegionOf(areas[i], va[i], attr);
      (forall a :: InRegion(r, a) ==> PagedPa(r, a) == LinearPa(r, a)) <==> areas[i].pa % PGDIR == 0
  {
    PagedIsLinear(RegionOf(areas[i], va[i], attr));
  }
}
