/**
 The access emulator (emulation.c): the list of checked regions, and what an emulated load or store
 by the normal world does.  A region's check is one of the two fixed policies or a driver's function.
 */
module Emulation {
  import opened Arith
  import opened Options

  datatype Check = AllowAll | DenyAll | Driver(id: nat)
  datatype Region = Region(base: int, size: int, check: Check)
  datatype Moment = Write | ReadBefore | ReadAfter
  datatype Verdict = Verdict(allowed: bool, value: bv32)

  /** The drivers' check functions: they judge an access and may change its value. */
  type Drivers = (nat, Region, int, Moment, bv32) -> Verdict

  function Judge(drivers: Drivers, r: Region, address: int, moment: Moment, value: bv32): Verdict {
    match r.check
    case AllowAll => Verdict(true, value)
    case DenyAll => Verdict(false, value)
    case Driver(id) => drivers(id, r, address, moment, value)
  }

  /** A region's address and size are words. */
  predicate IsWords(r: Region) { 0 <= r.base < WORD_LIMIT && 0 <= r.size < WORD_LIMIT }

  /** The test of emu_check: the end of a region counts as inside, and is computed in 32 bits. */
  predicate Covers(r: Region, address: int) { r.base <= address <= Sum32(r.base + r.size) }

  /** The addresses of a region without its end, as a size is usually meant. */
  predicate Inside(r: Region, address: int) { r.base <= address < r.base + r.size }

  /** A region that does not wrap is covered with its end; one that wraps is not covered at all. */
  lemma CoversExactly(r: Region, address: int)
    requires IsWords(r)
    ensures Covers(r, address) <==> r.base + r.size < WORD_LIMIT && (Inside(r, address) || address == r.base + r.size)
  {
  }

  /** The byte behind a deny-all region is denied with it. */
  lemma EndIsDenied(rs: seq<Region>, i: int)
    requires 0 <= i < |rs| && rs[i].check == DenyAll && IsWords(rs[i]) && rs[i].base + rs[i].size < WORD_LIMIT
    ensures !Inside(rs[i], rs[i].base + rs[i].size) && Denied(rs, rs[i].base + rs[i].size)
  {
    CoversExactly(rs[i], rs[i].base + rs[i].size);
  }

  /** Some deny-all region has the address inside. */
  ghost predicate DeniedInside(rs: seq<Region>, address: int) {
    exists i :: 0 <= i < |rs| && rs[i].check == DenyAll && Inside(rs[i], address)
  }

  /** No region wraps. */
  ghost predicate NoneWraps(rs: seq<Region>) {
    forall i :: 0 <= i < |rs| ==> IsWords(rs[i]) && rs[i].base + rs[i].size < WORD_LIMIT
  }

  /** The end of a deny-all region is inside another. */
  ghost predicate EndInside(rs: seq<Region>, i: int)
    requires 0 <= i < |rs|
  {
    rs[i].check == DenyAll ==> DeniedInside(rs, rs[i].base + rs[i].size)
  }

  /** Denied are exactly the addresses inside deny-all regions if and only if the end of each is inside another. */
  lemma DeniedIsInside(rs: seq<Region>)
    requires NoneWraps(rs)
    ensures (forall a :: Denied(rs, a) <==> DeniedInside(rs, a)) <==> (forall i :: 0 <= i < |rs| ==> EndInside(rs, i))
  {
    if forall a :: Denied(rs, a) <==> DeniedInside(rs, a) {
      forall i | 0 <= i < |rs| && rs[i].check == DenyAll ensures EndInside(rs, i) {
        EndIsDenied(rs, i);
        assert Denied(rs, rs[i].base + rs[i].size) <==> DeniedInside(rs, rs[i].base + rs[i].size);
      }
    }
    if forall i :: 0 <= i < |rs| ==> EndInside(rs, i) {
      forall a ensures Denied(rs, a) <==> DeniedInside(rs, a) { DeniedOrEnd(rs, a); }
    }
  }

  lemma DeniedOrEnd(rs: seq<Region>, a: int)
    requires NoneWraps(rs) && forall i :: 0 <= i < |rs| ==> EndInside(rs, i)
    ensures Denied(rs, a) <==> DeniedInside(rs, a)
  {
    if Denied(rs, a) {
      var i :| 0 <= i < |rs| && rs[i].check == DenyAll && Covers(rs[i], a);
      CoversExactly(rs[i], a);
      assert EndInside(rs, i);
    }
    if DeniedInside(rs, a) {
      var i :| 0 <= i < |rs| && rs[i].check == DenyAll && Inside(rs[i], a);
      CoversExactly(rs[i], a);
    }
  }

  /** All covering regions judge the access in list order, each seeing the value the last one left. */
  function CheckAll(drivers: Drivers, rs: seq<Region>, address: int, moment: Moment, value: bv32): Verdict {
    if rs == [] then Verdict(true, value)
    else
      var rest := CheckAll(drivers, rs[..|rs| - 1], address, moment, value);
      if Covers(rs[|rs| - 1], address) then
        var v := Judge(drivers, rs[|rs| - 1], address, moment, rest.value);
        Verdict(rest.allowed && v.allowed, v.value)
      else rest
  }

  /** Some deny-all region covers the address. */
  ghost predicate Denied(rs: seq<Region>, address: int) {
    exists i :: 0 <= i < |rs| && rs[i].check == DenyAll && Covers(rs[i], address)
  }

  /** One deny-all region is enough, whatever the other regions say. */
  lemma {:induction false} DeniedIsRefused(drivers: Drivers, rs: seq<Region>, address: int, moment: Moment, value: bv32)
    requires Denied(rs, address)
    ensures !CheckAll(drivers, rs, address, moment, value).allowed
  {
    var n := |rs| - 1;
    var i :| 0 <= i < |rs| && rs[i].check == DenyAll && Covers(rs[i], address);
    if i < n {
      assert rs[..n][i] == rs[i];
      DeniedIsRefused(drivers, rs[..n], address, moment, value);
    }
  }

  /** An address that no region covers is not checked at all. */
  lemma {:induction false} UncoveredIsAllowed(drivers: Drivers, rs: seq<Region>, address: int, moment: Moment,
      value: bv32)
    requires forall i :: 0 <= i < |rs| ==> !Covers(rs[i], address)
    ensures CheckAll(drivers, rs, address, moment, value) == Verdict(true, value)
  {
    if rs != [] {
      UncoveredIsAllowed(drivers, rs[..|rs| - 1], address, moment, value);
    }
  }

  /** A region at the head of the list judges first. */
  lemma {:induction false} HeadIsFirst(drivers: Drivers, r: Region, rs: seq<Region>, address: int, moment: Moment,
                                       value: bv32)
    ensures CheckAll(drivers, [r] + rs, address, moment, value) ==
      if !Covers(r, address) then CheckAll(drivers, rs, address, moment, value)
      else
        var v := Judge(drivers, r, address, moment, value);
        var w := CheckAll(drivers, rs, address, moment, v.value);
        Verdict(v.allowed && w.allowed, w.value)
  {
    var n := |rs| - 1;
    if rs == [] {
      assert ([r] + rs)[..0] == [];
    } else {
      assert ([r] + rs)[..|rs|] == [r] + rs[..n];
      HeadIsFirst(drivers, r, rs[..n], address, moment, value);
    }
  }

  /** The list without the first region equal to r. */
  function RemoveFirst(rs: seq<Region>, r: Region): seq<Region> {
    if rs == [] then [] else if rs[0] == r then rs[1..] else [rs[0]] + RemoveFirst(rs[1..], r)
  }

  lemma {:induction false} RemoveFirstAt(rs: seq<Region>, r: Region, i: int)
    requires 0 <= i < |rs| && rs[i] == r && r !in rs[..i]
    ensures RemoveFirst(rs, r) == rs[..i] + rs[i + 1..]
  {
    if i > 0 {
      assert rs[0] == rs[..i][0];
      assert forall x :: x in rs[1..][..i - 1] ==> x in rs[..i];
      RemoveFirstAt(rs[1..], r, i - 1);
    }
  }

  lemma {:induction false} RemoveFirstNone(rs: seq<Region>, r: Region)
    requires r !in rs
    ensures RemoveFirst(rs, r) == rs
  {
    if rs != [] { RemoveFirstNone(rs[1..], r); }
  }

  /** Removing a region that was added last gives the list back. */
  lemma RemoveUndoesAdd(rs: seq<Region>, r: Region)
    ensures RemoveFirst([r] + rs, r) == rs
  {
    assert ([r] + rs)[1..] == rs;
  }

  /** The low bytes of a word; sizes other than 1, 2 and 4 do not occur. */
  function Low(value: bv32, size: int): bv32 {
    if size == 1 then value & 0xFF else if size == 2 then value & 0xFFFF else if size == 4 then value else 0
  }

  /** Sign extension of a loaded byte or half word. */
  function Extend(value: bv32, size: int, sign: bool): bv32 {
    if sign && size == 1 && value & 0x80 != 0 then value | 0xFFFFFF00
    else if sign && size == 2 && value & 0x8000 != 0 then value | 0xFFFF0000
    else value
  }

  /** Extension keeps the bytes loaded. */
  lemma ExtendKeeps(value: bv32, size: int, sign: bool)
    requires size == 1 || size == 2 || size == 4
    ensures Low(Extend(Low(value, size), size, sign), size) == Low(value, size)
  {
    if size == 1 { KeepsByte(value, sign); } else if size == 2 { KeepsHalf(value, sign); }
  }

  lemma KeepsByte(value: bv32, sign: bool)
    ensures Low(Extend(Low(value, 1), 1, sign), 1) == Low(value, 1)
  {
    if sign && Low(value, 1) & 0x80 != 0 { LowByte(value); } else { ByteIsLow(value); }
  }

  lemma KeepsHalf(value: bv32, sign: bool)
    ensures Low(Extend(Low(value, 2), 2, sign), 2) == Low(value, 2)
  {
    if sign && Low(value, 2) & 0x8000 != 0 { LowHalf(value); } else { HalfIsLow(value); }
  }

  /** And it fills the others with the sign of a signed load, or with zeros. */
  lemma ExtendByte(value: bv32, sign: bool)
    ensures Extend(Low(value, 1), 1, sign) & 0xFFFF_FF00 == if sign && value & 0x80 != 0 then 0xFFFF_FF00 else 0
  {
    AboveByte(value);
  }

  lemma ExtendHalf(value: bv32, sign: bool)
    ensures Extend(Low(value, 2), 2, sign) & 0xFFFF_0000 == if sign && value & 0x8000 != 0 then 0xFFFF_0000 else 0
  {
    AboveHalf(value);
  }

  lemma AboveByte(value: bv32)
    ensures ((value & 0xFF) | 0xFFFFFF00) & 0xFFFFFF00 == 0xFFFFFF00 && (value & 0xFF) & 0xFFFFFF00 == 0
    ensures (value & 0xFF) & 0x80 == value & 0x80
  {
  }

  lemma AboveHalf(value: bv32)
    ensures ((value & 0xFFFF) | 0xFFFF0000) & 0xFFFF0000 == 0xFFFF0000 && (value & 0xFFFF) & 0xFFFF0000 == 0
    ensures (value & 0xFFFF) & 0x8000 == value & 0x8000
  {
  }

  lemma LowByte(value: bv32)
    ensures ((value & 0xFF) | 0xFFFFFF00) & 0xFF == value & 0xFF
  {
  }

  lemma ByteIsLow(value: bv32)
    ensures (value & 0xFF) & 0xFF == value & 0xFF
  {
  }

  lemma LowHalf(value: bv32)
    ensures ((value & 0xFFFF) | 0xFFFF0000) & 0xFFFF == value & 0xFFFF
  {
  }

  lemma HalfIsLow(value: bv32)
    ensures (value & 0xFFFF) & 0xFFFF == value & 0xFFFF
  {
  }

  class Emulator {
    var regions: seq<Region>

    constructor ()
      ensures regions == []
    {
      regions := [];
    }

    method AddRegion(r: Region)
      modifies this
      ensures regions == [r] + old(regions)
      ensures multiset(regions) == multiset(old(regions)) + multiset{r}
    {
      regions := [r] + regions;
    }

    /** Remove the first region equal to r, if there is one. */
    method RemoveRegion(r: Region)
      modifies this
      ensures multiset(regions) == multiset(old(regions)) - multiset{r}
      ensures regions == RemoveFirst(old(regions), r)
    {
      var i := 0;
      while i < |regions|
        invariant 0 <= i <= |regions| && regions == old(regions)
        invariant r !in regions[..i]
      {
        if regions[i] == r {
          RemovedOne(regions, i);
          RemoveFirstAt(regions, r, i);
          regions := regions[..i] + regions[i + 1..];
          return;
        }
        i := i + 1;
      }
      assert regions[..i] == regions;
      assert r !in multiset(regions);
      RemoveFirstNone(regions, r);
    }

    /** emu_check */
    method CheckAccess(drivers: Drivers, address: int, moment: Moment, value: bv32) returns (v: Verdict)
      ensures v == CheckAll(drivers, regions, address, moment, value)
    {
      v := Verdict(true, value);
      var i := 0;
      while i < |regions|
        invariant 0 <= i <= |regions|
        invariant v == CheckAll(drivers, regions[..i], address, moment, value)
      {
        assert regions[..i + 1][..i] == regions[..i];
        if Covers(regions[i], address) {
          var w := Judge(drivers, regions[i], address, moment, v.value);
          v := Verdict(v.allowed && w.allowed, w.value);
        }
        i := i + 1;
      }
      assert regions[..i] == regions;
    }

    /** emu_handle_load: stored is the word at the device's address. */
    method HandleLoad(drivers: Drivers, address: int, stored: bv32, size: int, sign: bool) returns (reg: bv32)
      ensures Denied(regions, address) ==> reg == 0
      ensures reg ==
        if CheckAll(drivers, regions, address, ReadBefore, 0).allowed
        then CheckAll(drivers, regions, address, ReadAfter, Extend(Low(stored, size), size, sign)).value else 0
    {
      var before := CheckAccess(drivers, address, ReadBefore, 0);
      if before.allowed {
        reg := Extend(Low(stored, size), size, sign);
        var after := CheckAccess(drivers, address, ReadAfter, reg);
        reg := after.value;
      } else {
        reg := 0;
      }
      if Denied(regions, address) { DeniedIsRefused(drivers, regions, address, ReadBefore, 0); }
    }

    /** emu_handle_store: the bytes written to the device, if any. */
    method HandleStore(drivers: Drivers, address: int, reg: bv32, size: int) returns (written: Option<bv32>)
      ensures Denied(regions, address) ==> written == None
      ensures var v := CheckAll(drivers, regions, address, Write, reg);
        written == if v.allowed && size in {1, 2, 4} then Some(Low(v.value, size)) else None
    {
      var v := CheckAccess(drivers, address, Write, reg);
      written := if v.allowed && (size == 1 || size == 2 || size == 4) then Some(Low(v.value, size)) else None;
      if Denied(regions, address) { DeniedIsRefused(drivers, regions, address, Write, reg); }
    }
  }

  lemma RemovedOne(rs: seq<Region>, i: int)
    requires 0 <= i < |rs|
    ensures multiset(rs[..i] + rs[i + 1..]) == multiset(rs) - multiset{rs[i]}
  {
    assert rs == rs[..i] + ([rs[i]] + rs[i + 1..]);
  }
}
