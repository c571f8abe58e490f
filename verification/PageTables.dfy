/**
 The ARMv7 short-descriptor tables of core_mmu_v7.c (section B3.5 of the ARM Architecture Reference
 Manual, DDI 0406C): a first level of 1 MiB slots, each empty, a section or a pointer to a second
 level of 4 KiB pages.
 A descriptor is a number; the base address and the attribute bits never overlap, so that setting
 bits is adding.
 */
module PageTables {
  import opened Options
  import opened Arith
  import opened Descriptors

  const NUM_L1 := 4096
  const NUM_L2 := 256
  const MAX_TABLES := 8
  const USER_LIMIT := 0x200_0000

  // ---------------------------------------------------------------- the walk

  /** What the hardware finds for a virtual address: a physical one, and the attribute bits of the descriptors on the
      way. */
  datatype Hit = InSection(pa: int, bits: int) | InPage(pa: int, table: int, bits: int)

  /** What these bits grant. */
  function Permits(hit: Hit): Access {
    if hit.InSection? then SectionAccess(hit.bits) else PageAccess(hit.table, hit.bits)
  }

  function Walk(l1: seq<int>, l2: seq<seq<int>>, base: int, va: int): Option<Hit>
    requires |l1| == NUM_L1 && 0 <= va < 0x1_0000_0000
  {
    var d := l1[va / SECTION];
    if d % 4 == 1 then
      var t := TableOf(base, d);
      if 0 <= t < |l2| && |l2[t]| == NUM_L2 then
        var p := l2[t][va % SECTION / PAGE];
        if p % 4 >= 2 then Some(InPage(p - p % PAGE + va % PAGE, d % TABLE_SIZE, p % PAGE)) else None
      else None
    else if d % 4 >= 2 && d / 0x4_0000 % 2 == 0 then Some(InSection(d - d % SECTION + va % SECTION, d % SECTION))
    else None
  }

  /** The number of the table that a descriptor points to; the tables are an array at address base. */
  function TableOf(base: int, d: int): int { d / TABLE_SIZE - base / TABLE_SIZE }

  function TableAddress(base: int, t: int): int { base + TABLE_SIZE * t }

  /** A region to be mapped. */
  datatype Region = Region(va: int, pa: int, size: int, attr: Attr)

  predicate RegionOk(r: Region) {
    0 <= r.va && 0 <= r.pa && 0 <= r.size && r.va + r.size <= 0x1_0000_0000 && r.pa + r.size <= 0x1_0000_0000
      && AttrOk(r.attr)
  }

  predicate InRegion(r: Region, va: int) { r.va <= va < r.va + r.size }

  class Tables {
    var l1: seq<int>
    var l2: seq<seq<int>>
    var used: int
    const base: int

    /** Every pointer in the first level leads to its own table in use. */
    ghost predicate Valid()
      reads this
    {
      Shape() == true
    }

    ghost predicate Shape()
      reads this
    {
      && |l2| == MAX_TABLES && (forall t :: 0 <= t < MAX_TABLES ==> |l2[t]| == NUM_L2)
      && 0 <= used <= MAX_TABLES && base > 0 && base % TABLE_SIZE == 0
      && FirstLevelOk(l1, base, used)
    }

    /** Tables before anything is mapped; core_init_mmu_tables clears the first level. */
    constructor (base: int)
      requires base > 0 && base % TABLE_SIZE == 0
      ensures Valid() && this.base == base && used == 0
      ensures forall va :: 0 <= va < 0x1_0000_0000 ==> Walk(l1, l2, base, va) == None
    {
      l1 := seq(NUM_L1, i => 0);
      l2 := seq(MAX_TABLES, t => seq(NUM_L2, i => 0));
      used := 0;
      this.base := base;
    }

    /** core_mmu_alloc_l2, for one table: its number, or -1 when all are in use. */
    method AllocTable() returns (t: int)
      requires Valid()
      modifies this`l2, this`used
      ensures Valid()
      ensures t == -1 ==> l2 == old(l2) && used == old(used) == MAX_TABLES
      ensures t != -1 ==> t == old(used) < MAX_TABLES && used == t + 1 && l2 == old(l2)[t := ZeroTable()]
    {
      if used + 1 > MAX_TABLES { return -1; }
      t := used;
      l2 := l2[t := ZeroTable()];
      used := used + 1;
    }

    /** The loop of map_page_memarea; false for a conflicting entry. */
    method FillPages(t: int, r: Region) returns (ok: bool)
      requires Valid() && 0 <= t < MAX_TABLES && ChunkOk(r)
      modifies this`l2
      ensures Valid()
      ensures ok ==> FilledRow(old(l2), l2, t, r)
      ensures ok <==> forall g :: FirstPage(r) <= g < LastPage(r) ==> NoConflict(old(l2)[t][g], PageDesc(r, g))
    {
      ChunkPages(r);
      var g := FirstPage(r);
      while g * PAGE < r.size + r.va % SECTION
        invariant FirstPage(r) <= g <= LastPage(r) && Valid()
        invariant FilledUpto(old(l2), l2, t, r, g)
        invariant forall h :: FirstPage(r) <= h < g ==> NoConflict(old(l2)[t][h], PageDesc(r, h))
      {
        var desc := PageDesc(r, g);
        assert l2[t][g] == old(l2)[t][g];
        if l2[t][g] != 0 && l2[t][g] != desc { return false; }
        l2 := l2[t := l2[t][g := desc]];
        g := g + 1;
      }
      ok := true;
    }

    /** map_page_memarea_in_pgdirs for one slot; false where the source stops (a conflict, or no table left). */
    method MapChunk(r: Region) returns (ok: bool)
      requires Valid() && ChunkOk(r) && (l1[r.va / SECTION] == 0 || l1[r.va / SECTION] % 4 == 1)
      modifies this
      ensures Valid()
      ensures ok ==> Maps(old(l1), old(l2), l1, l2, base, r, SlotHit)
      ensures ok <==> ChunkFree(old(l1), old(l2), old(used), base, r)
      ensures ok && old(l1)[r.va / SECTION] == 0 ==> used == old(used) + 1
      ensures |l1| == NUM_L1 && forall i :: 0 <= i < NUM_L1 && i != r.va / SECTION ==> l1[i] == old(l1)[i]
    {
      var idx := r.va / SECTION;
      var xlat := l1[idx];
      var t;
      ghost var rows := l2;
      if xlat == 0 {
        t := AllocTable();
        if t == -1 { return false; }
      } else {
        t := TableOf(base, xlat);
      }
      ghost var zeroed := l2;
      ok := FillPages(t, r);
      if !ok { return; }
      var desc := TableAddress(base, t) + TableBits(r.attr);
      if l1[idx] != 0 && l1[idx] != desc { return false; }
      TableOfAddress(base, t, TableBits(r.attr));
      forall va | 0 <= va < 0x1_0000_0000
        ensures Walk(l1[idx := desc], l2, base, va) == if InRegion(r, va) then Some(SlotHit(r, va))
          else Walk(l1, rows, base, va)
      {
        ChunkWalk(l1, rows, zeroed, l2, base, t, desc, r, va);
      }
      l1 := l1[idx := desc];
    }

    /** One round of the loop of map_memarea_sections. */
    method MapSection(idx: int, pa: int, attr: Attr, ghost first: seq<int>, ghost r: Region, ghost i: int)
      returns (ok: bool)
      requires Valid() && RegionOk(r) && SectionAligned(r) && attr == r.attr
      requires 0 <= i < r.size / SECTION && idx == r.va / SECTION + i && pa == r.pa + i * SECTION
      requires Maps(first, l2, l1, l2, base, Part(r, i * SECTION), LinearHit)
      modifies this`l1
      ensures Valid()
      ensures ok ==> Maps(first, l2, l1, l2, base, Part(r, (i + 1) * SECTION), LinearHit)
      ensures 0 <= idx < NUM_L1 && (ok <==> NoConflict(old(l1)[idx], pa + SectionBits(attr)))
      ensures l1 == if ok then old(l1)[idx := pa + SectionBits(attr)] else old(l1)
    {
      var desc := pa + SectionBits(attr);
      SectionPlaced(first, l1, l2, base, used, r, i, idx, desc);
      if l1[idx] != 0 && l1[idx] != desc { return false; }
      l1 := l1[idx := desc];
      ok := true;
    }

    /** map_memarea_sections; false for a conflicting entry. */
    method MapSections(r: Region) returns (ok: bool)
      requires Valid() && RegionOk(r) && SectionAligned(r)
      modifies this`l1
      ensures Valid()
      ensures ok ==> Maps(old(l1), l2, l1, l2, base, r, LinearHit)
      ensures ok <==> SectionsFree(old(l1), r)
      ensures Elsewhere(old(l1), l1, r.va / SECTION, (r.va + r.size) / SECTION - 1)
    {
      var idx, pa, n := r.va / SECTION, r.pa, r.size / SECTION;
      ghost var i := 0;
      SectionCount(r);
      while n > 0
        invariant 0 <= i && 0 <= n && i + n == r.size / SECTION && idx == r.va / SECTION + i && pa == r.pa + i * SECTION
        invariant Valid() && Maps(old(l1), l2, l1, l2, base, Part(r, i * SECTION), LinearHit)
        invariant |l1| == NUM_L1 && forall j :: 0 <= j < NUM_L1 && !(r.va / SECTION <= j < idx) ==> l1[j] == old(l1)[j]
        invariant forall j :: 0 <= j < i ==> SectionFree(old(l1), r, j)
      {
        ok := MapSection(idx, pa, r.attr, old(l1), r, i);
        assert ok <==> SectionFree(old(l1), r, i);
        if !ok { return; }
        idx, pa, n, i := idx + 1, pa + SECTION, n - 1, i + 1;
      }
      assert Part(r, i * SECTION) == r;
      ok := true;
    }

    /** map_memarea; false where the source stops. */
    method MapMemarea(r: Region) returns (ok: bool)
      requires Valid() && RegionOk(r)
      requires !SectionAligned(r) ==> NoSections(l1, r.va / SECTION, LastSlot(r))
      modifies this
      ensures Valid()
      ensures ok ==> r.va >= USER_LIMIT && PageAligned(r)
      ensures ok ==> Maps(old(l1), old(l2), l1, l2, base, r, if SectionAligned(r) then LinearHit else PagedHit)
      ensures
        && r.va >= USER_LIMIT && PageAligned(r) && Clear(old(l1), r.va / SECTION, LastSlot(r))
        && old(used) + TablesFor(r) <= MAX_TABLES
        ==> ok && used == old(used) + TablesFor(r)
      ensures Elsewhere(old(l1), l1, r.va / SECTION, LastSlot(r))
    {
      if r.va < USER_LIMIT { return false; }
      if SectionAligned(r) {
        ClearSections(l1, r);
        ok := MapSections(r);
        AlignedPages(r);
        return;
      }
      if !PageAligned(r) { return false; }
      ok := MapPages(r);
    }

    /** One round of the loop of map_memarea. */
    method MapOneChunk(ghost r: Region, ghost size: int, chunk: Region, ghost first1: seq<int>,
                       ghost first2: seq<seq<int>>, ghost used0: int)
      returns (ok: bool)
      requires Valid() && RegionOk(r) && PageAligned(r) && 0 < size <= r.size && chunk == ChunkAt(r, size)
      requires PagesDone(first1, first2, used0, l1, l2, used, base, r, size)
      modifies this
      ensures Valid() && Elsewhere(first1, l1, r.va / SECTION, LastSlot(r)) && (Enough(first1, used0, r) ==> ok)
      ensures ok ==> PagesDone(first1, first2, used0, l1, l2, used, base, r, size - chunk.size)
    {
      ghost var mid1, mid2, mid := l1, l2, used;
      ChunkReady(first1, first2, used0, l1, l2, used, base, r, size, chunk);
      ok := MapChunk(chunk);
      ChunkLeaves(first1, first2, used0, mid1, mid2, mid, l1, used, base, r, size, chunk, ok);
      if ok { ChunkDone(first1, first2, used0, mid1, mid2, mid, l1, l2, used, base, r, size, chunk); }
    }

    /** The loop of map_memarea over the slots that a region touches. */
    method MapPages(r: Region) returns (ok: bool)
      requires Valid() && RegionOk(r) && PageAligned(r)
      requires NoSections(l1, r.va / SECTION, LastSlot(r))
      modifies this
      ensures Valid()
      ensures ok ==> Maps(old(l1), old(l2), l1, l2, base, r, PagedHit)
      ensures Enough(old(l1), old(used), r) ==> ok && used == old(used) + Slots(r)
      ensures Elsewhere(old(l1), l1, r.va / SECTION, LastSlot(r))
    {
      var va, pa, size := r.va, r.pa, r.size;
      ghost var first1, first2, used0 := l1, l2, used;
      PagesStart(l1, l2, used, base, r);
      while size > 0
        invariant 0 <= size <= r.size && va == r.va + (r.size - size) && pa == r.pa + (r.size - size)
        invariant Valid() && PagesDone(first1, first2, used0, l1, l2, used, base, r, size)
      {
        var chunk := Region(va, pa, Min(size, SECTION - va % SECTION), r.attr);
        ChunkFits(r, size, chunk);
        ok := MapOneChunk(r, size, chunk, first1, first2, used0);
        if !ok { return; }
        size, pa, va := size - chunk.size, pa + chunk.size, va + chunk.size;
      }
      PagesEnd(first1, first2, used0, l1, l2, used, base, r);
      ok := true;
    }

    /** core_init_mmu_tables: the tables say what the list of regions says, and nothing else. */
    method MapAll(regions: seq<Region>) returns (ok: bool)
      requires Valid() && RegionsOk(regions)
      modifies this
      ensures Valid()
      ensures ok ==>
        |l1| == NUM_L1 && forall va :: 0 <= va < 0x1_0000_0000 ==> Walk(l1, l2, base, va) == Lookup(regions, va)
      ensures ok ==> AllGranted(l1, l2, base, regions)
      ensures Fit(regions, old(used)) ==> ok
    {
      l1 := seq(NUM_L1, i => 0);
      var n := 0;
      while n < |regions|
        invariant 0 <= n <= |regions| && Valid() && Mapped(l1, l2, base, used, old(used), regions, n)
      {
        ok := MapNext(regions, n, old(used));
        if !ok { return; }
        n := n + 1;
      }
      assert regions[..n] == regions;
      GrantedEverywhere(l1, l2, base, regions);
      ok := true;
    }

    method MapNext(regions: seq<Region>, n: int, ghost used0: int) returns (ok: bool)
      requires Valid() && RegionsOk(regions) && 0 <= n < |regions| && Mapped(l1, l2, base, used, used0, regions, n)
      modifies this
      ensures Valid() && (ok ==> Mapped(l1, l2, base, used, used0, regions, n + 1))
      ensures Fit(regions, used0) ==> ok
    {
      var r := regions[n];
      ghost var was1, was2 := l1, l2;
      if r.size > 0 { NoSectionsInside(l1, l2, base, used, regions, n); }
      TablesNext(regions, n);
      if Mappable(regions) { StillClear(l1, regions, n); }
      ok := MapMemarea(r);
      if !ok { return; }
      AgreesNext(was1, was2, l1, l2, base, regions, n);
      UntouchedNext(was1, l1, regions, n);
    }
  }

  // ---------------------------------------------------------------- the list of regions

  ghost predicate RegionsOk(regions: seq<Region>) {
    && (forall i :: 0 <= i < |regions| ==> RegionOk(regions[i]) && regions[i].size > 0)
    && (forall i, j :: 0 <= i < j < |regions| ==> Apart(regions[i], regions[j]))
  }

  predicate Apart(a: Region, b: Region) { a.va + a.size <= b.va || b.va + b.size <= a.va }

  /** Where the mapping of a region puts an address. */
  function Target(r: Region, va: int): Hit { if SectionAligned(r) then LinearHit(r, va) else PagedHit(r, va) }

  /** The meaning of the list: the region that holds the address says where it leads. */
  function Lookup(regions: seq<Region>, va: int): Option<Hit> {
    if regions == [] then None
    else if InRegion(regions[|regions| - 1], va) then Some(Target(regions[|regions| - 1], va))
    else Lookup(regions[..|regions| - 1], va)
  }

  /** A walk ends with what the region's attributes ask for. */
  ghost predicate GrantedAt(walk: Option<Hit>, r: Region) {
    walk.Some? && Permits(walk.value) == Granted(r.attr, !SectionAligned(r))
  }

  /** Every address of every region is granted what the region's attributes ask for. */
  ghost predicate AllGranted(l1: seq<int>, l2: seq<seq<int>>, base: int, regions: seq<Region>) {
    && |l1| == NUM_L1
    && forall i, va :: 0 <= i < |regions| && InRegion(regions[i], va) ==> WalkGrants(l1, l2, base, va, regions[i])
  }

  ghost predicate WalkGrants(l1: seq<int>, l2: seq<seq<int>>, base: int, va: int, r: Region) {
    |l1| == NUM_L1 && 0 <= va < 0x1_0000_0000 && GrantedAt(Walk(l1, l2, base, va), r)
  }

  lemma GrantedEverywhere(l1: seq<int>, l2: seq<seq<int>>, base: int, regions: seq<Region>)
    requires RegionsOk(regions) && Agrees(l1, l2, base, regions, |regions|)
    ensures AllGranted(l1, l2, base, regions)
  {
    assert regions[..|regions|] == regions;
    forall i, va | 0 <= i < |regions| && InRegion(regions[i], va) ensures WalkGrants(l1, l2, base, va, regions[i]) {
      assert RegionOk(regions[i]);
      LookupIs(regions, i, va);
      TargetIsGranted(regions[i], va);
    }
  }

  lemma TargetIsGranted(r: Region, va: int)
    requires AttrOk(r.attr)
    ensures GrantedAt(Some(Target(r, va)), r)
  {
    GrantedIsRead(r.attr);
  }

  lemma {:induction false} LookupNone(regions: seq<Region>, va: int)
    requires forall i :: 0 <= i < |regions| ==> !InRegion(regions[i], va)
    ensures Lookup(regions, va) == None
  {
    if regions != [] { LookupNone(regions[..|regions| - 1], va); }
  }

  ghost predicate Agrees(l1: seq<int>, l2: seq<seq<int>>, base: int, regions: seq<Region>, n: nat) {
    n <= |regions| && |l1| == NUM_L1
      && forall va :: 0 <= va < 0x1_0000_0000 ==> Walk(l1, l2, base, va) == Lookup(regions[..n], va)
  }

  lemma AgreesNext(was1: seq<int>, was2: seq<seq<int>>, l1: seq<int>, l2: seq<seq<int>>, base: int,
                   regions: seq<Region>, n: nat)
    requires n < |regions| && Agrees(was1, was2, base, regions, n)
    requires Maps(was1, was2, l1, l2, base, regions[n], if SectionAligned(regions[n]) then LinearHit else PagedHit)
    ensures Agrees(l1, l2, base, regions, n + 1)
  {
    var r := regions[n];
    assert regions[..n + 1][..n] == regions[..n];
    forall va | 0 <= va < 0x1_0000_0000 ensures Walk(l1, l2, base, va) == Lookup(regions[..n + 1], va) {
      assert Walk(l1, l2, base, va) == if InRegion(r, va) then Some(Target(r, va)) else Walk(was1, was2, base, va);
    }
  }

  /** A section in a slot that a new region touches would lie in an earlier region that overlaps it. */
  lemma NoSectionsInside(l1: seq<int>, l2: seq<seq<int>>, base: int, used: int, regions: seq<Region>, n: nat)
    requires n < |regions| && RegionsOk(regions) && Agrees(l1, l2, base, regions, n)
    requires forall i :: 0 <= i < NUM_L1 ==> SlotOk(l1[i], base, used)
    ensures NoSections(l1, regions[n].va / SECTION, (regions[n].va + regions[n].size - 1) / SECTION)
  {
    var r := regions[n];
    forall i | r.va / SECTION <= i <= (r.va + r.size - 1) / SECTION ensures NoSectionAt(l1, i) {
      var va := if i * SECTION > r.va then i * SECTION else r.va;
      SlotMeets(r, i, va);
      forall k | 0 <= k < n ensures !InRegion(regions[..n][k], va) { assert Apart(regions[k], regions[n]); }
      LookupNone(regions[..n], va);
      assert Walk(l1, l2, base, va) == None && SlotOk(l1[i], base, used);
    }
  }

  /** Regions that can all be mapped: on whole pages, above the user's part, and no two in one slot. */
  ghost predicate Mappable(regions: seq<Region>) {
    && (forall i ::
      0 <= i < |regions| ==> regions[i].va >= USER_LIMIT && PageAligned(regions[i]) && regions[i].size > 0)
    && (forall i, j :: 0 <= i < j < |regions| ==> OwnSlots(regions[i], regions[j]))
  }

  /** All regions can be mapped with the tables that are left. */
  ghost predicate Fit(regions: seq<Region>, used: int) {
    Mappable(regions) && used + TablesForAll(regions) <= MAX_TABLES
  }

  /** The first n regions are in the tables. */
  ghost predicate Mapped(l1: seq<int>, l2: seq<seq<int>>, base: int, used: int, used0: int, regions: seq<Region>,
                         n: nat) {
    && Agrees(l1, l2, base, regions, n)
    && (Fit(regions, used0) ==> Untouched(l1, regions, n) && used == used0 + TablesForAll(regions[..n]))
  }

  predicate OwnSlots(a: Region, b: Region) { LastSlot(a) < b.va / SECTION || LastSlot(b) < a.va / SECTION }

  /** The slots that none of the first n regions touches are empty. */
  ghost predicate Untouched(l1: seq<int>, regions: seq<Region>, n: nat) {
    n <= |regions| && forall i :: 0 <= i < |l1| && (forall k :: 0 <= k < n ==> !Touches(regions[k], i)) ==> l1[i] == 0
  }

  predicate Touches(r: Region, i: int) { r.va / SECTION <= i <= LastSlot(r) }

  lemma StillClear(l1: seq<int>, regions: seq<Region>, n: nat)
    requires Mappable(regions) && n < |regions|
    ensures Untouched(l1, regions, n) ==> Clear(l1, regions[n].va / SECTION, LastSlot(regions[n]))
  {
    if Untouched(l1, regions, n) {
      forall i | regions[n].va / SECTION <= i <= LastSlot(regions[n]) ensures ClearAt(l1, i) {
        forall k | 0 <= k < n ensures !Touches(regions[k], i) { assert OwnSlots(regions[k], regions[n]); }
      }
    }
  }

  lemma UntouchedNext(was: seq<int>, l1: seq<int>, regions: seq<Region>, n: nat)
    requires n < |regions| && Elsewhere(was, l1, regions[n].va / SECTION, LastSlot(regions[n]))
    ensures Untouched(was, regions, n) ==> Untouched(l1, regions, n + 1)
  {
    if Untouched(was, regions, n) {
      forall i | 0 <= i < |l1| && (forall k :: 0 <= k < n + 1 ==> !Touches(regions[k], i)) ensures l1[i] == 0 {
        assert !Touches(regions[n], i);
      }
    }
  }

  lemma {:induction false} TablesGrow(regions: seq<Region>, n: nat)
    requires n <= |regions| && RegionsOk(regions)
    ensures TablesForAll(regions[..n]) <= TablesForAll(regions)
  {
    if n < |regions| {
      var last := regions[|regions| - 1];
      assert Slots(last) >= 0 by { assert RegionOk(last); }
      assert regions[..|regions| - 1][..n] == regions[..n];
      TablesGrow(regions[..|regions| - 1], n);
    } else {
      assert regions[..n] == regions;
    }
  }

  lemma TablesNext(regions: seq<Region>, n: nat)
    requires n < |regions| && RegionsOk(regions)
    ensures TablesForAll(regions[..n + 1]) == TablesForAll(regions[..n])
      + TablesFor(regions[n]) <= TablesForAll(regions)
  {
    assert regions[..n + 1][..n] == regions[..n];
    TablesGrow(regions, n + 1);
  }

  lemma SlotMeets(r: Region, i: int, va: int)
    requires RegionOk(r) && r.size > 0 && r.va / SECTION <= i <= (r.va + r.size - 1) / SECTION
      && va == if i * SECTION > r.va then i * SECTION else r.va
    ensures 0 <= va < 0x1_0000_0000 && va / SECTION == i && InRegion(r, va)
  {
    var last := r.va + r.size - 1;
    assert r.va == r.va / SECTION * SECTION + r.va % SECTION && last == last / SECTION * SECTION + last % SECTION;
  }

  // ---------------------------------------------------------------- when the list is what it seems to be

  /** Mapping by pages keeps addresses at their distance from the region's start exactly when virtual and physical
      address agree on their place in a slot. */
  lemma PagedIsLinear(r: Region)
    requires RegionOk(r) && r.size > 0
    ensures (forall va :: InRegion(r, va) ==> PagedPa(r, va) == LinearPa(r, va)) <==> r.va % SECTION == r.pa % SECTION
  {
    if r.va % SECTION == r.pa % SECTION {
      forall va | InRegion(r, va) ensures PagedPa(r, va) == LinearPa(r, va) { CongruentPa(r, va); }
    } else {
      assert InRegion(r, r.va);
      assert PagedPa(r, r.va) == r.pa - r.pa % SECTION + r.va % SECTION;
    }
  }

  lemma CongruentPa(r: Region, va: int)
    requires RegionOk(r) && InRegion(r, va) && r.va % SECTION == r.pa % SECTION
    ensures PagedPa(r, va) == LinearPa(r, va)
  {
    var start := if va - va % SECTION > r.va then va - va % SECTION else r.va;
    var pa := r.pa + (start - r.va);
    assert va == va / SECTION * SECTION + va % SECTION;
    assert r.va == r.va / SECTION * SECTION + r.va % SECTION && r.pa == r.pa / SECTION * SECTION + r.pa % SECTION;
    assert start % SECTION == pa % SECTION by { SameRest(r.pa / SECTION - r.va / SECTION, start, pa); }
    assert start / SECTION == va / SECTION;
  }

  lemma SameRest(k: int, a: int, b: int)
    requires b == a + k * SECTION
    ensures b % SECTION == a % SECTION
  {
  }

  /** A region that the placement of virtual addresses can produce, and whose first page is mapped elsewhere. */
  lemma MisplacedRegion()
    ensures var r := Region(0x7E00_0000, 0x1080_1000, PAGE,
      Attr(false, true, true, false, false, false, true, true, 0, true, false));
      RegionOk(r) && PageAligned(r) && !SectionAligned(r) && Target(r, r.va).pa == 0x1080_0000
        && LinearPa(r, r.va) == 0x1080_1000
  {
  }

  /** map_pa2va */
  function Pa2Va(r: Region, pa: int): Option<int> {
    if r.pa <= pa <= r.pa + r.size - 1 then Some(r.va + pa - r.pa) else None
  }

  /** Translating to a virtual address and walking the tables is the identity, for regions the tables hold
      faithfully. */
  lemma Pa2VaWalk(l1: seq<int>, l2: seq<seq<int>>, base: int, regions: seq<Region>, i: int, pa: int)
    requires 0 <= i < |regions| && RegionsOk(regions) && |l1| == NUM_L1
    requires forall va :: 0 <= va < 0x1_0000_0000 ==> Walk(l1, l2, base, va) == Lookup(regions, va)
    requires Pa2Va(regions[i], pa) != None && regions[i].va % SECTION == regions[i].pa % SECTION
    ensures var va := Pa2Va(regions[i], pa).value;
      0 <= va < 0x1_0000_0000 && Walk(l1, l2, base, va) != None && Walk(l1, l2, base, va).value.pa == pa
  {
    var va := Pa2VaInRegion(regions[i], pa);
    LookupIs(regions, i, va);
  }

  lemma Pa2VaInRegion(r: Region, pa: int) returns (va: int)
    requires RegionOk(r) && Pa2Va(r, pa) != None && r.va % SECTION == r.pa % SECTION
    ensures Pa2Va(r, pa) == Some(va) && 0 <= va < 0x1_0000_0000 && InRegion(r, va) && Target(r, va).pa == pa
  {
    va := r.va + pa - r.pa;
    assert InRegion(r, va);
    CongruentPa(r, va);
  }

  lemma {:induction false} LookupIs(regions: seq<Region>, i: int, va: int)
    requires 0 <= i < |regions| && InRegion(regions[i], va)
    requires forall j, k :: 0 <= j < k < |regions| ==> Apart(regions[j], regions[k])
    ensures Lookup(regions, va) == Some(Target(regions[i], va))
    decreases |regions|
  {
    var n := |regions| - 1;
    if i < n {
      assert Apart(regions[i], regions[n]);
      assert forall j, k :: 0 <= j < k < n ==> Apart(regions[..n][j], regions[..n][k]) by {
        forall j, k | 0 <= j < k < n ensures Apart(regions[..n][j],
          regions[..n][k]) { assert Apart(regions[j], regions[k]); }
      }
      LookupIs(regions[..n], i, va);
    }
  }

  /** No section where pages are to go. */
  ghost predicate NoSections(l1: seq<int>, from: int, to: int) {
    forall i :: from <= i <= to ==> NoSectionAt(l1, i)
  }

  predicate NoSectionAt(l1: seq<int>, i: int) { 0 <= i < |l1| ==> l1[i] == 0 || l1[i] % 4 == 1 }

  lemma StillNoSections(before: seq<int>, after: seq<int>, idx: int, to: int)
    requires NoSections(before, idx, to) && |after| == |before|
      && forall i :: 0 <= i < |before| && i != idx ==> after[i] == before[i]
    ensures NoSections(after, idx + 1, to)
  {
    forall i | idx + 1 <= i <= to ensures NoSectionAt(after, i) { assert NoSectionAt(before, i); }
  }

  /** The last slot that a region touches. */
  function LastSlot(r: Region): int { (r.va + r.size - 1) / SECTION }

  /** How many slots a region touches. */
  function Slots(r: Region): int { if r.size == 0 then 0 else LastSlot(r) - r.va / SECTION + 1 }

  function TablesFor(r: Region): int { if SectionAligned(r) then 0 else Slots(r) }

  function TablesForAll(regions: seq<Region>): int {
    if regions == [] then 0 else TablesForAll(regions[..|regions| - 1]) + TablesFor(regions[|regions| - 1])
  }

  lemma SectionCount(r: Region)
    requires RegionOk(r) && SectionAligned(r)
    ensures (r.va + r.size) / SECTION == r.va / SECTION + r.size / SECTION && r.size == r.size / SECTION * SECTION
  {
    DivUnique(r.va + r.size, SECTION, r.va / SECTION + r.size / SECTION, 0);
  }

  /** The last slot of a region of whole sections. */
  lemma LastSection(r: Region)
    requires RegionOk(r) && SectionAligned(r)
    ensures LastSlot(r) == r.va / SECTION + r.size / SECTION - 1 == (r.va + r.size) / SECTION - 1
  {
    SectionCount(r);
    DivUnique(r.va + r.size - 1, SECTION, r.va / SECTION + r.size / SECTION - 1, SECTION - 1);
  }

  /** The slots of a range are empty. */
  ghost predicate Clear(l1: seq<int>, from: int, to: int) {
    forall i :: from <= i <= to ==> ClearAt(l1, i)
  }

  predicate ClearAt(l1: seq<int>, i: int) { 0 <= i < |l1| ==> l1[i] == 0 }

  /** No slot outside a range is changed. */
  ghost predicate Elsewhere(was: seq<int>, l1: seq<int>, from: int, to: int) {
    |l1| == |was| && forall i :: 0 <= i < |was| && !(from <= i <= to) ==> l1[i] == was[i]
  }

  lemma ElsewhereStill(was: seq<int>, mid: seq<int>, l1: seq<int>, from: int, to: int, idx: int)
    requires Elsewhere(was, mid, from, to) && from <= idx <= to && |l1| == |mid|
    requires forall i :: 0 <= i < |mid| && i != idx ==> l1[i] == mid[i]
    ensures Elsewhere(was, l1, from, to)
    ensures Clear(mid, idx, to) ==> Clear(l1, idx + 1, to)
  {
    if Clear(mid, idx, to) {
      forall i | idx + 1 <= i <= to ensures ClearAt(l1, i) { assert ClearAt(mid, i); }
    }
  }

  /** Nothing is in the way of section j of a region. */
  predicate SectionFree(l1: seq<int>, r: Region, j: int)
    requires AttrOk(r.attr)
  {
    0 <= r.va / SECTION + j < |l1| ==> NoConflict(l1[r.va / SECTION + j], r.pa + j * SECTION + SectionBits(r.attr))
  }

  ghost predicate SectionsFree(l1: seq<int>, r: Region)
    requires AttrOk(r.attr)
  {
    forall j :: 0 <= j < r.size / SECTION ==> SectionFree(l1, r, j)
  }

  lemma ClearSections(l1: seq<int>, r: Region)
    requires RegionOk(r) && SectionAligned(r)
    ensures LastSlot(r) == (r.va + r.size) / SECTION - 1
    ensures Clear(l1, r.va / SECTION, LastSlot(r)) ==> SectionsFree(l1, r)
  {
    LastSection(r);
    if Clear(l1, r.va / SECTION, LastSlot(r)) {
      forall j | 0 <= j < r.size / SECTION ensures SectionFree(l1, r, j) { assert ClearAt(l1, r.va / SECTION + j); }
    }
  }

  /** Nothing is in the way of a chunk: its slot is empty and a table is left, or its slot has a table with the right
      attributes whose pages are empty or already right. */
  ghost predicate ChunkFree(l1: seq<int>, l2: seq<seq<int>>, used: int, base: int, r: Region)
    requires AttrOk(r.attr)
  {
    && 0 <= r.va / SECTION < |l1|
    && var d := l1[r.va / SECTION];
       if d == 0 then used < MAX_TABLES
       else
         var t := TableOf(base, d);
         && d == TableAddress(base, t) + TableBits(r.attr)
         && 0 <= t < |l2| && |l2[t]| == NUM_L2
         && forall g :: FirstPage(r) <= g < LastPage(r) && 0 <= g < NUM_L2 ==> NoConflict(l2[t][g], PageDesc(r, g))
  }

  /** How far the loop of map_memarea is at address va: it has touched only the region's slots, has no section before
      it, and has taken a table for each slot if all were empty. */
  ghost predicate Progress(first: seq<int>, used0: int, l1: seq<int>, used: int, r: Region, va: int, size: int) {
    InProgress(first, used0, l1, used, r, va, size) == true
  }

  ghost predicate InProgress(first: seq<int>, used0: int, l1: seq<int>, used: int, r: Region, va: int, size: int) {
    && Elsewhere(first, l1, r.va / SECTION, LastSlot(r))
    && (size > 0 ==> NoSections(l1, va / SECTION, LastSlot(r)))
    && (Enough(first, used0, r) ==>
          if size > 0 then Clear(l1, va / SECTION, LastSlot(r)) && used == used0 + va / SECTION - r.va / SECTION
          else used == used0 + Slots(r))
  }

  /** All of a region's slots are empty, and there are tables left for them. */
  ghost predicate Enough(l1: seq<int>, used: int, r: Region) {
    Clear(l1, r.va / SECTION, LastSlot(r)) && used + Slots(r) <= MAX_TABLES
  }

  lemma SlotBounds(r: Region, va: int, size: int, step: int)
    requires RegionOk(r) && 0 < size <= r.size && va == r.va + (r.size - size)
    requires step == Min(size, SECTION - va % SECTION)
    ensures r.va / SECTION <= va / SECTION <= LastSlot(r) && (size == step ==> va / SECTION == LastSlot(r))
    ensures size > step ==> (va + step) / SECTION == va / SECTION + 1
  {
    assert va == va / SECTION * SECTION + va % SECTION;
    var last := r.va + r.size - 1;
    if size == step { DivUnique(last, SECTION, va / SECTION, va % SECTION + size - 1); }
    if size > step { DivUnique(va + step, SECTION, va / SECTION + 1, 0); }
  }

  lemma ProgressHere(first: seq<int>, used0: int, l1: seq<int>, used: int, r: Region, va: int, size: int, step: int)
    requires Progress(first, used0, l1, used, r, va, size) && RegionOk(r) && 0 < size <= r.size
    requires va == r.va + (r.size - size)
    requires step == Min(size, SECTION - va % SECTION)
    ensures NoSectionAt(l1, va / SECTION)
    ensures Enough(first, used0, r) ==> ClearAt(l1, va / SECTION) && used < MAX_TABLES
  {
    SlotBounds(r, va, size, step);
  }

  lemma ProgressNext(first: seq<int>, used0: int, mid1: seq<int>, mid: int, l1: seq<int>, used: int, r: Region, va: int,
                     size: int, step: int,
                     ok: bool)
    requires Progress(first, used0, mid1, mid, r, va, size) && RegionOk(r) && 0 < size <= r.size
    requires va == r.va + (r.size - size)
    requires step == Min(size, SECTION - va % SECTION)
    requires |l1| == |mid1| && forall i :: 0 <= i < |l1| && i != va / SECTION ==> l1[i] == mid1[i]
    requires Enough(first, used0, r) ==> ok && used == mid + 1
    ensures Elsewhere(first, l1, r.va / SECTION, LastSlot(r))
    ensures ok ==> Progress(first, used0, l1, used, r, va + step, size - step)
  {
    SlotBounds(r, va, size, step);
    var idx, last := va / SECTION, LastSlot(r);
    ElsewhereStill(first, mid1, l1, r.va / SECTION, last, idx);
    StillNoSections(mid1, l1, idx, last);
  }

  predicate SectionAligned(r: Region) { r.va % SECTION == 0 && r.pa % SECTION == 0 && r.size % SECTION == 0 }
  predicate PageAligned(r: Region) { r.va % PAGE == 0 && r.pa % PAGE == 0 && r.size % PAGE == 0 }

  /** The first bytes of a region. */
  function Part(r: Region, size: int): Region { r.(size := size) }

  /** What mapping a region means: addresses keep their distance from the region's start. */
  function LinearPa(r: Region, va: int): int { r.pa + (va - r.va) }

  /** A section with a region's attributes, and a page behind a pointer with them. */
  function AsSection(attr: Attr, pa: int): Hit { InSection(pa, if AttrOk(attr) then SectionBits(attr) else 0) }
  function AsPage(attr: Attr, pa: int): Hit { InPage(pa, TableBits(attr), if AttrOk(attr) then PageBits(attr) else 0) }

  function LinearHit(r: Region, va: int): Hit { AsSection(r.attr, LinearPa(r, va)) }
  function PagedHit(r: Region, va: int): Hit { AsPage(r.attr, PagedPa(r, va)) }
  function SlotHit(r: Region, va: int): Hit { AsPage(r.attr, SlotPa(r, va)) }

  /** What mapping by pages does: in each slot the addresses keep their place in the slot. */
  function PagedPa(r: Region, va: int): int {
    var start := if va - va % SECTION > r.va then va - va % SECTION else r.va;
    var pa := r.pa + (start - r.va);
    pa - pa % SECTION + va % SECTION
  }

  lemma AlignedPages(r: Region)
    requires SectionAligned(r)
    ensures PageAligned(r)
  {
    SectionIsPages(r.va);
    SectionIsPages(r.pa);
    SectionIsPages(r.size);
  }

  lemma SectionIsPages(x: int)
    requires x % SECTION == 0
    ensures x % PAGE == 0
  {
    assert x == PAGE * (256 * (x / SECTION));
  }

  lemma SlotInRange(r: Region, i: int, idx: int)
    requires RegionOk(r) && 0 <= i < r.size / SECTION && idx == r.va / SECTION + i && r.va % SECTION == 0
    ensures 0 <= idx < NUM_L1
  {
  }

  lemma SectionDesc(pa: int, bits: int)
    requires 0 <= pa && pa % SECTION == 0 && 0 <= bits < SECTION && bits % 4 >= 2 && bits / 0x4_0000 % 2 == 0
    ensures var d := pa + bits;
      d % 4 >= 2 && d / 0x4_0000 % 2 == 0 && d - d % SECTION == pa && d % SECTION == bits
  {
    var q, b, c := pa / SECTION, bits / 0x4_0000, bits % 0x4_0000;
    DivUnique(pa + bits, SECTION, q, bits);
    DivUnique(pa + bits, 4, 0x4_0000 * q + bits / 4, bits % 4);
    DivUnique(pa + bits, 0x4_0000, 4 * q + b, c);
    DivUnique(4 * q + b, 2, 2 * q + b / 2, b % 2);
  }

  /** A section written into its slot maps one more section of the region, and the level stays as it should be. */
  lemma SectionPlaced(first: seq<int>, l1: seq<int>, l2: seq<seq<int>>, base: int, used: int, r: Region, i: int,
                      idx: int, desc: int)
    requires RegionOk(r) && SectionAligned(r) && 0 <= i < r.size / SECTION && idx == r.va / SECTION + i
    requires Maps(first, l2, l1, l2, base, Part(r, i * SECTION), LinearHit) && FirstLevelOk(l1, base, used)
    requires desc == r.pa + i * SECTION + SectionBits(r.attr)
    ensures 0 <= idx < NUM_L1 && FirstLevelOk(l1[idx := desc], base, used)
    ensures Maps(first, l2, l1[idx := desc], l2, base, Part(r, (i + 1) * SECTION), LinearHit)
  {
    SlotInRange(r, i, idx);
    SectionDesc(r.pa + i * SECTION, SectionBits(r.attr));
    NextSection(first, l1, l2, base, r, i, idx, desc);
    SectionKeepsLevel(l1, base, used, idx, desc);
  }

  /** One more section. */
  lemma NextSection(first: seq<int>, l1: seq<int>, l2: seq<seq<int>>, base: int, r: Region, i: int, idx: int, desc: int)
    requires RegionOk(r) && r.va % SECTION == 0 && 0 <= i < r.size / SECTION && idx == r.va / SECTION + i
    requires 0 <= idx < NUM_L1
    requires Maps(first, l2, l1, l2, base, Part(r, i * SECTION), LinearHit)
    requires desc % 4 >= 2 && desc / 0x4_0000 % 2 == 0 && desc - desc % SECTION == r.pa + i * SECTION
    requires desc % SECTION == SectionBits(r.attr)
    ensures Maps(first, l2, l1[idx := desc], l2, base, Part(r, (i + 1) * SECTION), LinearHit)
  {
    var b := Region(r.va + i * SECTION, r.pa + i * SECTION, SECTION, r.attr);
    assert r.va == r.va / SECTION * SECTION;
    OneSection(l1, l2, base, b, idx, desc);
    MapsBoth(first, l2, l1, l2, l1[idx := desc], l2, base, Part(r, i * SECTION), b, Part(r, (i + 1) * SECTION),
      LinearHit, LinearHit);
  }

  lemma OneSection(l1: seq<int>, l2: seq<seq<int>>, base: int, b: Region, idx: int, desc: int)
    requires |l1| == NUM_L1 && 0 <= idx < NUM_L1 && b.va == idx * SECTION && b.size == SECTION && AttrOk(b.attr)
    requires desc % 4 >= 2 && desc / 0x4_0000 % 2 == 0 && desc - desc % SECTION == b.pa
    requires desc % SECTION == SectionBits(b.attr)
    ensures Maps(l1, l2, l1[idx := desc], l2, base, b, LinearHit)
  {
    var l1' := l1[idx := desc];
    forall va | 0 <= va < 0x1_0000_0000
      ensures Walk(l1', l2, base, va) == if InRegion(b, va) then Some(LinearHit(b, va)) else Walk(l1, l2, base, va)
    {
      assert va == va / SECTION * SECTION + va % SECTION;
      assert InRegion(b, va) <==> va / SECTION == idx;
      if va / SECTION != idx { assert l1'[va / SECTION] == l1[va / SECTION]; }
    }
  }

  /** The next chunk fits in its slot. */
  lemma NextChunk(r: Region, va: int, pa: int, size: int, chunk: Region)
    requires RegionOk(r) && PageAligned(r) && 0 < size <= r.size && va == r.va + (r.size - size)
    requires pa == r.pa + (r.size - size) && size % PAGE == 0
    requires chunk == Region(va, pa, Min(size, SECTION - va % SECTION), r.attr)
    ensures ChunkOk(chunk) && va / SECTION <= (r.va + r.size - 1) / SECTION && va / SECTION < NUM_L1
    ensures (size - chunk.size) % PAGE == 0
    ensures size > chunk.size ==> (va + chunk.size) % SECTION == 0 && (va + chunk.size) / SECTION == va / SECTION + 1
  {
    PageOffset(va);
    assert va == va / SECTION * SECTION + va % SECTION;
    ModSub(r.va + r.size, size, PAGE);
    ModSub(r.pa + r.size, size, PAGE);
    ModSub(SECTION, va % SECTION, PAGE);
    ModSub(size, chunk.size, PAGE);
    if size > chunk.size { DivUnique(va + chunk.size, SECTION, va / SECTION + 1, 0); }
  }

  lemma ModSub(a: int, b: int, m: int)
    requires m == PAGE && a % m == 0 && b % m == 0
    ensures (a - b) % m == 0
  {
  }

  /** The next chunk of a region of which size bytes are left: up to the end of its slot. */
  function ChunkAt(r: Region, size: int): Region {
    var va := r.va + (r.size - size);
    Region(va, r.pa + (r.size - size), Min(size, SECTION - va % SECTION), r.attr)
  }

  lemma ChunkFits(r: Region, size: int, chunk: Region)
    requires 0 < size <= r.size && chunk == ChunkAt(r, size)
    ensures 0 < chunk.size <= size
  {
  }

  /** The loop of map_memarea with size bytes left: what is before them is mapped. */
  ghost predicate PagesDone(first1: seq<int>, first2: seq<seq<int>>, used0: int, l1: seq<int>, l2: seq<seq<int>>,
                            used: int,
                            base: int, r: Region, size: int) {
    ArePagesDone(first1, first2, used0, l1, l2, used, base, r, size) == true
  }

  ghost predicate ArePagesDone(first1: seq<int>, first2: seq<seq<int>>, used0: int, l1: seq<int>, l2: seq<seq<int>>,
                               used: int, base: int, r: Region, size: int) {
    var va := r.va + (r.size - size);
    && size % PAGE == 0 && (size > 0 ==> va == r.va || va % SECTION == 0)
    && Maps(first1, first2, l1, l2, base, Part(r, r.size - size), PagedHit)
    && Progress(first1, used0, l1, used, r, va, size)
  }

  lemma ChunkReady(first1: seq<int>, first2: seq<seq<int>>, used0: int, l1: seq<int>, l2: seq<seq<int>>, used: int,
                   base: int, r: Region, size: int, chunk: Region)
    requires RegionOk(r) && PageAligned(r) && 0 < size <= r.size && chunk == ChunkAt(r, size)
    requires PagesDone(first1, first2, used0, l1, l2, used, base, r, size)
    ensures ChunkOk(chunk) && NoSectionAt(l1, chunk.va / SECTION) && 0 <= chunk.va / SECTION < NUM_L1
    ensures Enough(first1, used0, r) ==> ClearAt(l1, chunk.va / SECTION) && used < MAX_TABLES
  {
    NextChunk(r, chunk.va, chunk.pa, size, chunk);
    ProgressHere(first1, used0, l1, used, r, chunk.va, size, chunk.size);
  }

  lemma ChunkLeaves(first1: seq<int>, first2: seq<seq<int>>, used0: int, mid1: seq<int>, mid2: seq<seq<int>>, mid: int,
                    l1: seq<int>, used: int, base: int, r: Region, size: int, chunk: Region, ok: bool)
    requires RegionOk(r) && 0 < size <= r.size && chunk == ChunkAt(r, size)
    requires PagesDone(first1, first2, used0, mid1, mid2, mid, base, r, size)
    requires |l1| == |mid1| && forall i :: 0 <= i < |l1| && i != chunk.va / SECTION ==> l1[i] == mid1[i]
    requires Enough(first1, used0, r) ==> ok && used == mid + 1
    ensures Elsewhere(first1, l1, r.va / SECTION, LastSlot(r))
    ensures ok ==> Progress(first1, used0, l1, used, r, chunk.va + chunk.size, size - chunk.size)
  {
    ProgressNext(first1, used0, mid1, mid, l1, used, r, chunk.va, size, chunk.size, ok);
  }

  lemma ChunkDone(first1: seq<int>, first2: seq<seq<int>>, used0: int, mid1: seq<int>, mid2: seq<seq<int>>, mid: int,
                  l1: seq<int>, l2: seq<seq<int>>, used: int, base: int, r: Region, size: int, chunk: Region)
    requires RegionOk(r) && PageAligned(r) && 0 < size <= r.size && chunk == ChunkAt(r, size)
    requires PagesDone(first1, first2, used0, mid1, mid2, mid, base, r, size)
    requires Maps(mid1, mid2, l1, l2, base, chunk, SlotHit)
    requires Progress(first1, used0, l1, used, r, chunk.va + chunk.size, size - chunk.size)
    ensures PagesDone(first1, first2, used0, l1, l2, used, base, r, size - chunk.size)
  {
    NextChunk(r, chunk.va, chunk.pa, size, chunk);
    ChunkExtends(first1, first2, mid1, mid2, l1, l2, base, r, r.size - size, chunk);
    DoneIs(first1, first2, used0, l1, l2, used, base, r, size - chunk.size, r.size - size + chunk.size);
  }

  lemma DoneIs(first1: seq<int>, first2: seq<seq<int>>, used0: int, l1: seq<int>, l2: seq<seq<int>>, used: int,
               base: int,
               r: Region, left: int, done: int)
    requires left == r.size - done && left % PAGE == 0 && (left > 0 ==> (r.va + done) % SECTION == 0)
    requires Maps(first1, first2, l1, l2, base, Part(r, done), PagedHit)
    requires Progress(first1, used0, l1, used, r, r.va + done, left)
    ensures PagesDone(first1, first2, used0, l1, l2, used, base, r, left)
  {
  }

  lemma PagesStart(l1: seq<int>, l2: seq<seq<int>>, used: int, base: int, r: Region)
    requires |l1| == NUM_L1 && RegionOk(r) && PageAligned(r) && NoSections(l1, r.va / SECTION, LastSlot(r))
    ensures PagesDone(l1, l2, used, l1, l2, used, base, r, r.size)
  {
    assert Progress(l1, used, l1, used, r, r.va, r.size);
    assert Maps(l1, l2, l1, l2, base, Part(r, 0), PagedHit);
  }

  lemma PagesEnd(first1: seq<int>, first2: seq<seq<int>>, used0: int, l1: seq<int>, l2: seq<seq<int>>, used: int,
                 base: int,
                 r: Region)
    requires PagesDone(first1, first2, used0, l1, l2, used, base, r, 0)
    ensures Maps(first1, first2, l1, l2, base, r, PagedHit) && Elsewhere(first1, l1, r.va / SECTION, LastSlot(r))
    ensures Enough(first1, used0, r) ==> used == used0 + Slots(r)
  {
    assert Part(r, r.size) == r;
  }

  /** A chunk more of a region mapped by pages. */
  lemma ChunkExtends(first1: seq<int>, first2: seq<seq<int>>, mid1: seq<int>, mid2: seq<seq<int>>, l1: seq<int>,
                     l2: seq<seq<int>>,
                     base: int, r: Region, done: int, chunk: Region)
    requires 0 <= done < r.size && chunk.va == r.va + done && chunk.pa == r.pa + done && ChunkOk(chunk) && RegionOk(r)
    requires (done == 0 || chunk.va % SECTION == 0) && chunk.attr == r.attr
    requires Maps(first1, first2, mid1, mid2, base, Part(r, done), PagedHit)
    requires Maps(mid1, mid2, l1, l2, base, chunk, SlotHit)
    ensures Maps(first1, first2, l1, l2, base, Part(r, done + chunk.size), PagedHit)
  {
    forall va | 0 <= va < 0x1_0000_0000
      && InRegion(chunk, va) ensures SlotHit(chunk, va) == PagedHit(Part(r, done + chunk.size), va) {
      ChunkStart(r, done, chunk, va);
      PartPa(r, done + chunk.size, va);
    }
    forall va ensures PagedHit(Part(r, done + chunk.size), va) == PagedHit(Part(r, done), va) {
      PartPa(r, done + chunk.size, va);
      PartPa(r, done, va);
    }
    MapsBoth(first1, first2, mid1, mid2, l1, l2, base, Part(r, done), chunk, Part(r, done + chunk.size), PagedHit,
      SlotHit);
  }

  lemma PartPa(r: Region, size: int, va: int)
    ensures PagedPa(Part(r, size), va) == PagedPa(r, va)
  {
  }

  /** Two regions mapped one after the other that together are a third. */
  lemma MapsBoth(first1: seq<int>, first2: seq<seq<int>>, mid1: seq<int>, mid2: seq<seq<int>>, l1: seq<int>,
                 l2: seq<seq<int>>, base: int,
                 a: Region, b: Region, c: Region, f: (Region, int) -> Hit, g: (Region, int) -> Hit)
    requires Maps(first1, first2, mid1, mid2, base, a, f) && Maps(mid1, mid2, l1, l2, base, b, g)
    requires b.va == a.va + a.size && c.va == a.va && c.size == a.size + b.size && 0 <= a.size && 0 <= b.size
    requires forall va :: 0 <= va < 0x1_0000_0000 && InRegion(b, va) ==> g(b, va) == f(c, va)
    requires forall va :: f(c, va) == f(a, va)
    ensures Maps(first1, first2, l1, l2, base, c, f)
  {
    forall va | 0 <= va < 0x1_0000_0000
      ensures Walk(l1, l2, base, va) == if InRegion(c, va) then Some(f(c, va)) else Walk(first1, first2, base, va)
    {
      assert Walk(mid1, mid2, base, va) == if InRegion(a, va) then Some(f(a, va)) else Walk(first1, first2, base, va);
    }
  }

  lemma ChunkStart(r: Region, done: int, chunk: Region, va: int)
    requires 0 <= done && chunk.va == r.va + done && chunk.pa == r.pa + done && ChunkOk(chunk)
    requires InRegion(chunk, va) && RegionOk(r)
    requires done == 0 || chunk.va % SECTION == 0
    ensures SlotPa(chunk, va) == PagedPa(r, va)
  {
    assert va == va / SECTION * SECTION + va % SECTION;
    assert chunk.va == chunk.va / SECTION * SECTION + chunk.va % SECTION;
    assert va / SECTION == chunk.va / SECTION;
  }

  /** Where page mapping puts an address: by its place in the slot. */
  function SlotPa(r: Region, va: int): int { r.pa - r.pa % SECTION + va % SECTION }

  /** After a change of the tables, addresses of the region lead where they should and all others where they did. */
  ghost predicate Maps(l1: seq<int>, l2: seq<seq<int>>, l1': seq<int>, l2': seq<seq<int>>, base: int, r: Region,
                       hit: (Region, int) -> Hit) {
    WalksTo(l1, l2, l1', l2', base, r, hit) == true
  }

  ghost predicate WalksTo(l1: seq<int>, l2: seq<seq<int>>, l1': seq<int>, l2': seq<seq<int>>, base: int, r: Region,
                          hit: (Region, int) -> Hit) {
    && |l1| == |l1'| == NUM_L1
    && forall va :: 0 <= va < 0x1_0000_0000 ==>
      Walk(l1', l2', base, va) == if InRegion(r, va) then Some(hit(r, va)) else Walk(l1, l2, base, va)
  }

  lemma TableOfAddress(base: int, t: int, bits: int)
    requires base % TABLE_SIZE == 0 && 0 <= bits < TABLE_SIZE && bits % 4 == 1
    ensures TableOf(base, TableAddress(base, t) + bits) == t && (TableAddress(base, t) + bits) % 4 == 1
    ensures (TableAddress(base, t) + bits) % TABLE_SIZE == bits
  {
  }

  /** What the walk finds after one slot's pages were filled in. */
  lemma ChunkWalk(l1: seq<int>, l2: seq<seq<int>>, zeroed: seq<seq<int>>, l2': seq<seq<int>>, base: int, t: int,
                  desc: int, r: Region, va: int)
    requires |l1| == NUM_L1 && |l2| == MAX_TABLES && (forall u :: 0 <= u < MAX_TABLES ==> |l2[u]| == NUM_L2)
    requires ChunkOk(r) && 0 <= t < MAX_TABLES && desc % 4 == 1 && TableOf(base, desc) == t && 0 <= va < 0x1_0000_0000
    requires desc % TABLE_SIZE == TableBits(r.attr)
    requires var xlat := l1[r.va / SECTION];
      if xlat == 0 then zeroed == l2[t := ZeroTable()] else zeroed == l2 && xlat == desc
    requires forall i :: 0 <= i < NUM_L1 && i != r.va / SECTION && l1[i] % 4 == 1 ==> TableOf(base, l1[i]) != t
    requires FilledRow(zeroed, l2', t, r)
    ensures Walk(l1[r.va / SECTION := desc], l2', base, va) == if InRegion(r, va) then Some(SlotHit(r, va))
      else Walk(l1, l2, base, va)
  {
    var idx := r.va / SECTION;
    if va / SECTION == idx {
      PageOf(r, va);
      if InRegion(r, va) { PageAddress(r, va); }
    } else {
      OtherSlot(r, va);
    }
  }

  /** Within the slot, the region's addresses are those of its pages. */
  lemma PageOf(r: Region, va: int)
    requires ChunkOk(r) && 0 <= va && va / SECTION == r.va / SECTION
    ensures 0 <= va % SECTION / PAGE < NUM_L2
    ensures InRegion(r, va) <==> FirstPage(r) <= va % SECTION / PAGE < LastPage(r)
  {
    ChunkPages(r);
    assert va == va / SECTION * SECTION + va % SECTION && r.va == r.va / SECTION * SECTION + r.va % SECTION;
    var o := va % SECTION;
    assert o == o / PAGE * PAGE + o % PAGE;
  }

  lemma OtherSlot(r: Region, va: int)
    requires ChunkOk(r) && 0 <= va && va / SECTION != r.va / SECTION
    ensures !InRegion(r, va)
  {
    assert va == va / SECTION * SECTION + va % SECTION && r.va == r.va / SECTION * SECTION + r.va % SECTION;
  }

  lemma PageAddress(r: Region, va: int)
    requires ChunkOk(r) && 0 <= va
    ensures var p := PageDesc(r, va % SECTION / PAGE);
      p % 4 >= 2 && p - p % PAGE + va % PAGE == SlotPa(r, va) && p % PAGE == PageBits(r.attr)
  {
    var g, o := va % SECTION / PAGE, va % SECTION;
    PageOffset(va);
    var high := r.pa - r.pa % SECTION;
    HighPart(r.pa, g, PageBits(r.attr));
    assert o == g * PAGE + o % PAGE;
  }

  lemma PageOffset(va: int)
    requires 0 <= va
    ensures va % SECTION % PAGE == va % PAGE
  {
    assert va == va / SECTION * SECTION + va % SECTION;
    var q, o := va / SECTION, va % SECTION;
    assert va == PAGE * (256 * q + o / PAGE) + o % PAGE;
  }

  lemma HighPart(pa: int, g: int, bits: int)
    requires 0 <= pa && 0 <= g && 0 <= bits < PAGE
    ensures var p := pa - pa % SECTION + g * PAGE + bits;
      p % PAGE == bits && p % 4 == bits % 4
  {
    var q := pa / SECTION;
    assert pa - pa % SECTION == q * SECTION;
    assert pa - pa % SECTION + g * PAGE + bits == PAGE * (256 * q + g) + bits;
    assert pa - pa % SECTION + g * PAGE + bits == 4 * (0x400 * (256 * q + g)) + bits;
  }

  function ZeroTable(): seq<int> { seq(NUM_L2, i => 0) }

  /** A part of a region that lies in one slot, in whole pages. */
  predicate ChunkOk(r: Region) {
    && RegionOk(r) && r.size > 0 && r.va % SECTION + r.size <= SECTION
    && r.va % PAGE == 0 && r.pa % PAGE == 0 && r.size % PAGE == 0
  }

  function FirstPage(r: Region): int { r.va % SECTION / PAGE }
  function LastPage(r: Region): int { (r.va % SECTION + r.size) / PAGE }

  lemma ChunkPages(r: Region)
    requires ChunkOk(r)
    ensures 0 <= FirstPage(r) < LastPage(r) <= NUM_L2
    ensures FirstPage(r) * PAGE == r.va % SECTION && LastPage(r) * PAGE == r.va % SECTION + r.size
  {
    assert r.va % SECTION % PAGE == 0 by {
      assert r.va == r.va / SECTION * SECTION + r.va % SECTION;
      assert SECTION == 256 * PAGE;
    }
  }

  /** The descriptor of page g of the slot: the slot's part of the physical address, not the region's start. */
  function PageDesc(r: Region, g: int): int
    requires AttrOk(r.attr)
  {
    r.pa - r.pa % SECTION + g * PAGE + PageBits(r.attr)
  }

  predicate NoConflict(had: int, desc: int) { had == 0 || had == desc }

  ghost predicate FilledUpto(before: seq<seq<int>>, after: seq<seq<int>>, t: int, r: Region, n: int)
    requires AttrOk(r.attr)
  {
    && |after| == |before| && 0 <= t < |before| && |after[t]| == |before[t]| == NUM_L2
    && (forall u :: 0 <= u < |before| && u != t ==> after[u] == before[u])
    && (forall g :: 0 <= g < NUM_L2 ==> after[t][g] == if FirstPage(r) <= g < n then PageDesc(r, g) else before[t][g])
  }

  ghost predicate FilledRow(before: seq<seq<int>>, after: seq<seq<int>>, t: int, r: Region)
    requires AttrOk(r.attr)
  {
    FilledUpto(before, after, t, r, LastPage(r))
  }

  ghost predicate FirstLevelOk(l1: seq<int>, base: int, used: int) {
    && |l1| == NUM_L1 && (forall i :: 0 <= i < NUM_L1 ==> SlotOk(l1[i], base, used))
    && (forall i, j :: 0 <= i < j < NUM_L1 ==> !SameTable(l1[i], l1[j], base))
  }

  lemma SectionKeepsLevel(l1: seq<int>, base: int, used: int, idx: int, desc: int)
    requires FirstLevelOk(l1, base, used) && 0 <= idx < NUM_L1 && desc % 4 >= 2 && desc / 0x4_0000 % 2 == 0
    ensures FirstLevelOk(l1[idx := desc], base, used)
  {
  }

  /** A slot is empty, a pointer to a table in use, or a section. */
  predicate SlotOk(d: int, base: int, used: int) {
    && (d % 4 == 0 ==> d == 0)
    && (d % 4 == 1 ==> 0 <= TableOf(base, d) < used)
    && (d % 4 >= 2 ==> d / 0x4_0000 % 2 == 0)
  }

  predicate SameTable(d: int, e: int, base: int) { d % 4 == 1 && e % 4 == 1 && TableOf(base, d) == TableOf(base, e) }
}
