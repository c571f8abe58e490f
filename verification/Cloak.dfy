/**
 Applying the user's settings (entry.c, drivers/dt.c): classes of devices are switched off and on,
 and the security unit's slots and the emulator's region list follow.
 */
module Cloak {
  import opened Seal
  import opened Devices
  import opened Emulation
  import Csu
  import DeviceTable

  // ---------------------------------------------------------------- sums over devices

  ghost function Total<T>(parts: seq<multiset<T>>): multiset<T> {
    if parts == [] then multiset{} else Total(parts[..|parts| - 1]) + parts[|parts| - 1]
  }

  /** Replacing one part of a total replaces it in the total. */
  lemma {:induction false} TotalUpdate<T>(parts: seq<multiset<T>>, i: int, p: multiset<T>)
    requires 0 <= i < |parts|
    ensures parts[i] <= Total(parts) && Total(parts[i := p]) == Total(parts) - parts[i] + p
  {
    var n := |parts| - 1;
    var rest := Total(parts[..n]);
    assert Total(parts) == rest + parts[n];
    if i < n {
      assert parts[i := p][..n] == parts[..n][i := p];
      TotalUpdate(parts[..n], i, p);
      SwapUnder(rest, parts[i], p, parts[n]);
    } else {
      assert parts[i := p][..n] == parts[..n];
      SwapUnder(parts[n], parts[n], p, rest);
      assert parts[n] - parts[n] + p == p;
      assert p + rest == rest + p && parts[n] + rest == rest + parts[n];
    }
  }

  lemma SwapUnder<T>(all: multiset<T>, q: multiset<T>, p: multiset<T>, more: multiset<T>)
    requires q <= all
    ensures q <= all + more && (all - q + p) + more == (all + more) - q + p
  {
    forall t | t in q ensures q[t] <= (all + more)[t] { assert q[t] <= all[t]; }
  }

  lemma GainOne<T>(m: multiset<T>, t: T, rest: multiset<T>)
    ensures m + multiset{t} + rest == m + rest + multiset{t}
  {
  }

  lemma LoseOne<T>(m: multiset<T>, t: T, rest: multiset<T>)
    requires t in m
    ensures m - multiset{t} + rest == m + rest - multiset{t}
  {
  }

  lemma PutBack<T>(m: multiset<T>, t: T)
    requires t in m
    ensures m == m - multiset{t} + multiset{t}
  {
  }

  /** What a device contributes to the protected slots and to the denied regions. */
  ghost function SlotPart(d: Device, on: bool): multiset<nat> {
    if !on && CanProtect(d) then multiset(d.csu) else multiset{}
  }

  ghost function RegionPart(d: Device, on: bool): multiset<Region> {
    if !on && CanProtect(d) then multiset(DenyRegions(d.resources)) else multiset{}
  }

  ghost function DenyRegions(rs: seq<Resource>): seq<Region> {
    seq(|rs|, i requires 0 <= i < |rs| => DenyRegion(rs[i]))
  }

  function DenyRegion(r: Resource): Region { Region(r.address, r.size, DenyAll) }

  ghost function SlotParts(devs: seq<Device>, enabled: seq<bool>): seq<multiset<nat>>
    requires |devs| == |enabled|
  {
    seq(|devs|, i requires 0 <= i < |devs| => SlotPart(devs[i], enabled[i]))
  }

  ghost function RegionParts(devs: seq<Device>, enabled: seq<bool>): seq<multiset<Region>>
    requires |devs| == |enabled|
  {
    seq(|devs|, i requires 0 <= i < |devs| => RegionPart(devs[i], enabled[i]))
  }

  /** The protects outstanding for disabled devices, and the regions denied for them. */
  ghost function Slots(devs: seq<Device>, enabled: seq<bool>): multiset<nat>
    requires |devs| == |enabled|
  {
    Total(SlotParts(devs, enabled))
  }

  ghost function Regions(devs: seq<Device>, enabled: seq<bool>): multiset<Region>
    requires |devs| == |enabled|
  {
    Total(RegionParts(devs, enabled))
  }

  /** The sums, with the other holders' parts, after a device is switched. */
  lemma SwitchSlots(devs: seq<Device>, enabled: seq<bool>, x: int, on: bool, held: multiset<nat>)
    requires |devs| == |enabled| && 0 <= x < |devs|
    ensures SlotPart(devs[x], enabled[x]) <= held + Slots(devs, enabled)
    ensures held + Slots(devs, enabled[x := on])
            == held + Slots(devs, enabled) - SlotPart(devs[x], enabled[x]) + SlotPart(devs[x], on)
  {
    var slots := SlotPart(devs[x], on);
    TotalUpdate(SlotParts(devs, enabled), x, slots);
    assert SlotParts(devs, enabled[x := on]) == SlotParts(devs, enabled)[x := slots];
    SwapOver(Slots(devs, enabled), SlotPart(devs[x], enabled[x]), slots, held);
  }

  lemma SwitchRegions(devs: seq<Device>, enabled: seq<bool>, x: int, on: bool, others: multiset<Region>)
    requires |devs| == |enabled| && 0 <= x < |devs|
    ensures others + Regions(devs, enabled[x := on])
            == others + Regions(devs, enabled) - RegionPart(devs[x], enabled[x]) + RegionPart(devs[x], on)
  {
    var regions := RegionPart(devs[x], on);
    TotalUpdate(RegionParts(devs, enabled), x, regions);
    assert RegionParts(devs, enabled[x := on]) == RegionParts(devs, enabled)[x := regions];
    SwapOver(Regions(devs, enabled), RegionPart(devs[x], enabled[x]), regions, others);
  }

  lemma SwapOver<T>(all: multiset<T>, q: multiset<T>, p: multiset<T>, more: multiset<T>)
    requires q <= all
    ensures q <= more + all && more + (all - q + p) == more + all - q + p
  {
    SwapUnder(all, q, p, more);
    assert more + all == all + more && more + (all - q + p) == (all - q + p) + more;
  }

  lemma AddOne(devs: seq<Device>, enabled: seq<bool>, d: Device)
    requires |devs| == |enabled|
    ensures Slots(devs + [d], enabled + [true]) == Slots(devs, enabled)
    ensures Regions(devs + [d], enabled + [true]) == Regions(devs, enabled)
  {
    var n := |devs|;
    assert SlotParts(devs + [d], enabled + [true])[..n] == SlotParts(devs, enabled);
    assert RegionParts(devs + [d], enabled + [true])[..n] == RegionParts(devs, enabled);
  }

  // ---------------------------------------------------------------- the loops of dt_enable_device

  /** The counts are those of a multiset of protects. */
  ghost predicate Tally(counts: seq<int>, m: multiset<nat>) {
    |counts| == MAX_SLOT && forall c: nat :: c < MAX_SLOT ==> counts[c] == m[c]
  }

  method ProtectSlot(csu: Csu.Unit, slot: nat, ghost m: multiset<nat>)
    requires csu.Valid() && Tally(csu.counts, m) && slot < MAX_SLOT
    modifies csu
    ensures csu.Valid() && Tally(csu.counts, m + multiset{slot})
  {
    csu.SetCsl(slot, true);
  }

  method ReleaseSlot(csu: Csu.Unit, slot: nat, ghost m: multiset<nat>)
    requires csu.Valid() && Tally(csu.counts, m) && slot < MAX_SLOT && slot in m
    modifies csu
    ensures csu.Valid() && Tally(csu.counts, m - multiset{slot})
  {
    csu.SetCsl(slot, false);
  }

  method ProtectSlots(csu: Csu.Unit, slots: seq<nat>, ghost m: multiset<nat>)
    requires csu.Valid() && Tally(csu.counts, m) && SlotsOk(slots)
    modifies csu
    ensures csu.Valid() && Tally(csu.counts, m + multiset(slots))
  {
    var k := 0;
    while k < |slots|
      invariant 0 <= k <= |slots| && csu.Valid()
      invariant Tally(csu.counts, m + multiset(slots[..k]))
    {
      assert slots[..k + 1] == slots[..k] + [slots[k]];
      ProtectSlot(csu, slots[k], m + multiset(slots[..k]));
      k := k + 1;
    }
    assert slots[..k] == slots;
  }

  method ReleaseSlots(csu: Csu.Unit, slots: seq<nat>, ghost m: multiset<nat>)
    requires csu.Valid() && Tally(csu.counts, m) && SlotsOk(slots) && multiset(slots) <= m
    modifies csu
    ensures csu.Valid() && Tally(csu.counts, m - multiset(slots))
  {
    var k := 0;
    while k < |slots|
      invariant 0 <= k <= |slots| && csu.Valid()
      invariant Tally(csu.counts, m - multiset(slots[..k]))
    {
      assert slots[..k + 1] == slots[..k] + [slots[k]];
      OneMore(slots, k);
      ReleaseSlot(csu, slots[k], m - multiset(slots[..k]));
      k := k + 1;
    }
    assert slots[..k] == slots;
  }

  lemma OneMore(slots: seq<nat>, k: int)
    requires 0 <= k < |slots|
    ensures multiset(slots[..k])[slots[k]] < multiset(slots)[slots[k]]
  {
    assert slots == slots[..k] + ([slots[k]] + slots[k + 1..]);
  }

  method AddRegions(emu: Emulator, rs: seq<Resource>)
    modifies emu
    ensures multiset(emu.regions) == multiset(old(emu.regions)) + multiset(DenyRegions(rs))
  {
    var k := 0;
    while k < |rs|
      invariant 0 <= k <= |rs|
      invariant multiset(emu.regions) == multiset(old(emu.regions)) + multiset(DenyRegions(rs[..k]))
    {
      emu.AddRegion(Region(rs[k].address, rs[k].size, DenyAll));
      assert DenyRegions(rs[..k + 1]) == DenyRegions(rs[..k]) + [DenyRegion(rs[k])];
      k := k + 1;
    }
    assert rs[..k] == rs;
  }

  lemma OneDenyMore(all: multiset<Region>, rs: seq<Resource>, k: int)
    requires 0 <= k < |rs|
    ensures all - multiset(DenyRegions(rs[..k])) - multiset{DenyRegion(rs[k])}
      == all - multiset(DenyRegions(rs[..k + 1]))
  {
    var a, b := DenyRegions(rs[..k]), DenyRegion(rs[k]);
    assert DenyRegions(rs[..k + 1]) == a + [b];
    assert multiset(a + [b]) == multiset(a) + multiset{b};
    MinusTwice(all, multiset(a), multiset{b});
  }

  lemma MinusTwice<T>(m: multiset<T>, a: multiset<T>, b: multiset<T>)
    ensures m - a - b == m - (a + b)
  {
  }

  method RemoveRegions(emu: Emulator, rs: seq<Resource>)
    modifies emu
    ensures multiset(emu.regions) == multiset(old(emu.regions)) - multiset(DenyRegions(rs))
  {
    var k := 0;
    while k < |rs|
      invariant 0 <= k <= |rs|
      invariant multiset(emu.regions) == multiset(old(emu.regions)) - multiset(DenyRegions(rs[..k]))
    {
      emu.RemoveRegion(Region(rs[k].address, rs[k].size, DenyAll));
      OneDenyMore(multiset(old(emu.regions)), rs, k);
      k := k + 1;
    }
    assert rs[..k] == rs;
  }

  /** The protections of one device: its regions are listed whenever its slots are protected for it. */
  method Switch(csu: Csu.Unit, emu: Emulator, d: Device, enable: bool, ghost m: multiset<nat>)
    requires csu.Valid() && Tally(csu.counts, m) && SlotsOk(d.csu) && SlotPart(d, !enable) <= m
    modifies csu, emu
    ensures csu.Valid() && Tally(csu.counts, m - SlotPart(d, !enable) + SlotPart(d, enable))
    ensures multiset(emu.regions) == multiset(old(emu.regions)) - RegionPart(d, !enable) + RegionPart(d, enable)
  {
    if |d.csu| > 0 && d.isMemory {
      if enable {
        ReleaseSlots(csu, d.csu, m);
        RemoveRegions(emu, d.resources);
      } else {
        AddRegions(emu, d.resources);
        ProtectSlots(csu, d.csu, m);
      }
    }
  }

  /** Counts and regions are those of the disabled devices and of the other holders. */
  ghost predicate Sums(devs: seq<Device>, enabled: seq<bool>, held: multiset<nat>, others: multiset<Region>,
                       counts: seq<int>, regions: multiset<Region>)
    requires |devs| == |enabled|
  {
    forall key: Key :: Opens(key) && key == OfSums ==>
      Tally(counts, held + Slots(devs, enabled)) && regions == others + Regions(devs, enabled)
  }

  lemma AddKeepsSums(devs: seq<Device>, enabled: seq<bool>, held: multiset<nat>, others: multiset<Region>,
                     counts: seq<int>, regions: multiset<Region>, d: Device)
    requires |devs| == |enabled| && Sums(devs, enabled, held, others, counts, regions)
    ensures Sums(devs + [d], enabled + [true], held, others, counts, regions)
  {
    assert Opens(OfSums);
    AddOne(devs, enabled, d);
  }

  lemma SwitchKeepsSums(devs: seq<Device>, enabled: seq<bool>, held: multiset<nat>, others: multiset<Region>,
                        counts: seq<int>, regions: multiset<Region>, x: int, on: bool)
    requires |devs| == |enabled| && 0 <= x < |devs|
    requires Tally(counts, held + Slots(devs, enabled) - SlotPart(devs[x], enabled[x]) + SlotPart(devs[x], on))
    requires regions == others + Regions(devs, enabled) - RegionPart(devs[x], enabled[x]) + RegionPart(devs[x], on)
    ensures Sums(devs, enabled[x := on], held, others, counts, regions)
  {
    SwitchSlots(devs, enabled, x, on, held);
    SwitchRegions(devs, enabled, x, on, others);
  }

  lemma HoldKeepsSums(devs: seq<Device>, enabled: seq<bool>, held: multiset<nat>, others: multiset<Region>,
                      counts: seq<int>, regions: multiset<Region>, slot: nat, region: Region)
    requires |devs| == |enabled|
    requires Tally(counts, held + Slots(devs, enabled) + multiset{slot})
    requires regions == others + Regions(devs, enabled) + multiset{region}
    ensures Sums(devs, enabled, held + multiset{slot}, others + multiset{region}, counts, regions)
  {
    GainOne(held, slot, Slots(devs, enabled));
    GainOne(others, region, Regions(devs, enabled));
  }

  lemma UnholdKeepsSums(devs: seq<Device>, enabled: seq<bool>, held: multiset<nat>, others: multiset<Region>,
                        counts: seq<int>, regions: multiset<Region>, slot: nat, region: Region)
    requires |devs| == |enabled| && slot in held && region in others
    requires Tally(counts, held + Slots(devs, enabled) - multiset{slot})
    requires regions == others + Regions(devs, enabled) - multiset{region}
    ensures Sums(devs, enabled, held - multiset{slot}, others - multiset{region}, counts, regions)
  {
    LoseOne(held, slot, Slots(devs, enabled));
    LoseOne(others, region, Regions(devs, enabled));
  }

  lemma AddKeepsAccounted(devs: seq<Device>, enabled: seq<bool>, d: Device)
    requires WellFormed(devs) && WellFormed(devs + [d]) && Accounted(devs, OffSet(enabled))
    ensures Accounted(devs + [d], OffSet(enabled + [true]))
  {
    assert Opens(OfAccount);
    assert OffSet(enabled + [true]) == OffSet(enabled);
    ExplainedGrows(devs, d, OffSet(enabled), NAMES);
  }

  method SwitchDevice(csu: Csu.Unit, emu: Emulator, d: Device, ghost x: int, enable: bool,
                      ghost devs: seq<Device>, ghost enabled: seq<bool>, ghost held: multiset<nat>,
                        ghost others: multiset<Region>)
    requires |devs| == |enabled| && 0 <= x < |devs| && devs[x] == d && enabled[x] != enable && SlotsOk(d.csu)
    requires csu.Valid() && Sums(devs, enabled, held, others, csu.counts, multiset(emu.regions))
    modifies csu, emu
    ensures csu.Valid() && Sums(devs, enabled[x := enable], held, others, csu.counts, multiset(emu.regions))
  {
    assert Opens(OfSums);
    SwitchSlots(devs, enabled, x, enable, held);
    Switch(csu, emu, d, enable, held + Slots(devs, enabled));
    SwitchKeepsSums(devs, enabled, held, others, csu.counts, multiset(emu.regions), x, enable);
  }

  method Take(csu: Csu.Unit, emu: Emulator, slot: nat, region: Region,
              ghost devs: seq<Device>, ghost enabled: seq<bool>, ghost held: multiset<nat>,
                ghost others: multiset<Region>)
    requires |devs| == |enabled| && slot < MAX_SLOT && csu.Valid()
    requires Sums(devs, enabled, held, others, csu.counts, multiset(emu.regions))
    modifies csu, emu
    ensures csu.Valid()
    ensures Sums(devs, enabled, held + multiset{slot}, others + multiset{region}, csu.counts, multiset(emu.regions))
  {
    assert Opens(OfSums);
    emu.AddRegion(region);
    ProtectSlot(csu, slot, held + Slots(devs, enabled));
    HoldKeepsSums(devs, enabled, held, others, csu.counts, multiset(emu.regions), slot, region);
  }

  method Release(csu: Csu.Unit, emu: Emulator, slot: nat, region: Region,
                 ghost devs: seq<Device>, ghost enabled: seq<bool>, ghost held: multiset<nat>,
                   ghost others: multiset<Region>)
    returns (ghost held': multiset<nat>, ghost others': multiset<Region>)
    requires |devs| == |enabled| && slot < MAX_SLOT && slot in held && region in others
    requires csu.Valid() && Sums(devs, enabled, held, others, csu.counts, multiset(emu.regions))
    modifies csu, emu
    ensures csu.Valid() && held == held' + multiset{slot} && others == others' + multiset{region}
    ensures Sums(devs, enabled, held', others', csu.counts, multiset(emu.regions))
  {
    assert Opens(OfSums);
    ReleaseSlot(csu, slot, held + Slots(devs, enabled));
    emu.RemoveRegion(region);
    UnholdKeepsSums(devs, enabled, held, others, csu.counts, multiset(emu.regions), slot, region);
    held', others' := held - multiset{slot}, others - multiset{region};
    PutBack(held, slot);
    PutBack(others, region);
  }

  // ---------------------------------------------------------------- the settings word

  const NAMES: seq<string> := ["wifi", "bluetooth", "cellular", "camera", "audio-out", "audio-in", "gps", "inertial"]

  /** Each class's two bits, shifted down; the upper of the two allows the class. */
  function Shifted(word: bv32, c: nat): bv32
    requires c < 8
  {
    match c
    case 0 => word >> 5
    case 1 => word >> 7
    case 2 => word >> 9
    case 3 => word >> 14
    case 4 => word >> 16
    case 5 => word >> 18
    case 6 => word >> 23
    case 7 => word >> 25
  }

  predicate Allows(word: bv32, c: nat)
    requires c < 8
  {
    Shifted(word, c) & 0x2 != 0
  }

  /** One of the device's classes has its bit clear in the word. */
  ghost predicate IsDenied(d: Device, word: bv32) {
    || (HasClass(d, "wifi") && word & 0x40 == 0)
    || (HasClass(d, "bluetooth") && word & 0x100 == 0)
    || (HasClass(d, "cellular") && word & 0x400 == 0)
    || (HasClass(d, "camera") && word & 0x8000 == 0)
    || (HasClass(d, "audio-out") && word & 0x2_0000 == 0)
    || (HasClass(d, "audio-in") && word & 0x8_0000 == 0)
    || (HasClass(d, "gps") && word & 0x100_0000 == 0)
    || (HasClass(d, "inertial") && word & 0x400_0000 == 0)
  }

  /** The bit of each class. */
  lemma AllowsBits(word: bv32)
    ensures Allows(word, 0) <==> word & 0x40 != 0
    ensures Allows(word, 1) <==> word & 0x100 != 0
    ensures Allows(word, 2) <==> word & 0x400 != 0
    ensures Allows(word, 3) <==> word & 0x8000 != 0
    ensures Allows(word, 4) <==> word & 0x2_0000 != 0
    ensures Allows(word, 5) <==> word & 0x8_0000 != 0
    ensures Allows(word, 6) <==> word & 0x100_0000 != 0
    ensures Allows(word, 7) <==> word & 0x400_0000 != 0
  {
    ShiftedBits(word);
    ShiftedBitsAbove(word);
  }

  lemma ShiftedBits(word: bv32)
    ensures (word >> 5) & 0x2 != 0 <==> word & 0x40 != 0
    ensures (word >> 7) & 0x2 != 0 <==> word & 0x100 != 0
    ensures (word >> 9) & 0x2 != 0 <==> word & 0x400 != 0
    ensures (word >> 14) & 0x2 != 0 <==> word & 0x8000 != 0
  {
  }

  lemma ShiftedBitsAbove(word: bv32)
    ensures (word >> 16) & 0x2 != 0 <==> word & 0x2_0000 != 0
    ensures (word >> 18) & 0x2 != 0 <==> word & 0x8_0000 != 0
    ensures (word >> 23) & 0x2 != 0 <==> word & 0x100_0000 != 0
    ensures (word >> 25) & 0x2 != 0 <==> word & 0x400_0000 != 0
  {
  }

  /** The denied devices by the bits of the word. */
  lemma DeniedByBits(devs: seq<Device>, word: bv32, y: int)
    ensures y in DeniedDevices(devs, word, 8) <==> 0 <= y < |devs| && IsDenied(devs[y], word)
  {
    if 0 <= y < |devs| { DeniedMeans(devs[y], word); }
  }

  lemma DeniedMeans(d: Device, word: bv32)
    ensures IsDenied(d, word) <==> exists c: nat :: c < 8 && Denies(d, word, c)
  {
    AllowsBits(word);
    assert IsDenied(d, word) <==>
      || Denies(d, word, 0) || Denies(d, word, 1) || Denies(d, word, 2) || Denies(d, word, 3)
      || Denies(d, word, 4) || Denies(d, word, 5) || Denies(d, word, 6) || Denies(d, word, 7);
  }

  ghost predicate Denies(d: Device, word: bv32, c: nat)
    requires c < 8
  {
    !Allows(word, c) && HasClass(d, NAMES[c])
  }

  /** A device is disabled exactly when it is on the chain of a device with a denied class. */
  lemma DisabledByBits(devs: seq<Device>, word: bv32, x: int)
    requires WellFormed(devs)
    ensures x in Disabled(devs, word) <==> exists y :: 0 <= y < |devs| && x in Chain(devs, y) && IsDenied(devs[y], word)
  {
    forall y ensures y in DeniedDevices(devs, word, 8) <==> 0 <= y < |devs| && IsDenied(devs[y], word) {
      DeniedByBits(devs, word, y);
    }
  }

  /** With all bits set nothing is disabled, and more bits never disable more. */
  lemma AllBitsAllow(devs: seq<Device>)
    requires WellFormed(devs)
    ensures Disabled(devs, 0xFFFF_FFFF) == {}
  {
    forall x ensures x !in Disabled(devs, 0xFFFF_FFFF) { DisabledByBits(devs, 0xFFFF_FFFF, x); }
  }

  lemma MoreBitsAllowMore(devs: seq<Device>, word: bv32, more: bv32)
    requires WellFormed(devs) && word & more == word
    ensures Disabled(devs, more) <= Disabled(devs, word)
  {
    forall x | x in Disabled(devs, more) ensures x in Disabled(devs, word) {
      DisabledByBits(devs, more, x);
      var y :| 0 <= y < |devs| && x in Chain(devs, y) && IsDenied(devs[y], more);
      DenialShrinks(devs[y], word, more);
      DisabledByBits(devs, word, x);
    }
  }

  lemma DenialShrinks(d: Device, word: bv32, more: bv32)
    requires word & more == word && IsDenied(d, more)
    ensures IsDenied(d, word)
  {
    ClearStaysClear(word, more, 0x40);
    ClearStaysClear(word, more, 0x100);
    ClearStaysClear(word, more, 0x400);
    ClearStaysClear(word, more, 0x8000);
    ClearStaysClear(word, more, 0x2_0000);
    ClearStaysClear(word, more, 0x8_0000);
    ClearStaysClear(word, more, 0x100_0000);
    ClearStaysClear(word, more, 0x400_0000);
  }

  lemma ClearStaysClear(word: bv32, more: bv32, mask: bv32)
    requires word & more == word
    ensures more & mask == 0 ==> word & mask == 0
  {
  }

  /** The devices of the classes among the first n that the word does not allow. */
  ghost function DeniedDevices(devs: seq<Device>, word: bv32, n: nat): set<int>
    requires n <= 8
  {
    set x | 0 <= x < |devs| && exists c: nat :: c < n && Denies(devs[x], word, c)
  }

  lemma DeniedStep(devs: seq<Device>, word: bv32, n: nat)
    requires n < 8
    ensures DeniedDevices(devs, word, n + 1) ==
      if Allows(word, n) then DeniedDevices(devs, word, n)
      else DeniedDevices(devs, word, n) + Members(devs, NAMES[n])
  {
    forall x | 0 <= x < |devs|
      ensures x in DeniedDevices(devs, word, n + 1) <==> x in DeniedDevices(devs, word, n) || Denies(devs[x], word, n)
    {
      if x in DeniedDevices(devs, word, n) {
        var c: nat :| c < n && Denies(devs[x], word, c);
        assert c < n + 1 && Denies(devs[x], word, c);
      }
    }
  }

  /** The devices that a settings word disables. */
  ghost function Disabled(devs: seq<Device>, word: bv32): set<int>
    requires WellFormed(devs)
  {
    Chains(devs, DeniedDevices(devs, word, 8))
  }

  /** Every disabled device is on the chain of a disabled device of a known class. */
  ghost predicate Accounted(devs: seq<Device>, off: set<int>)
    requires WellFormed(devs)
  {
    forall key: Key :: Opens(key) && key == OfAccount ==> off <= All(devs) && Explained(devs, off, NAMES)
  }

  /** What a settings word disables is accounted for. */
  lemma DisabledIsAccounted(devs: seq<Device>, word: bv32)
    requires WellFormed(devs)
    ensures Accounted(devs, Disabled(devs, word))
  {
    DeniedAreMembers(devs, word);
    ChainsAreExplained(devs, DeniedDevices(devs, word, 8), NAMES);
  }

  /** The other holders' regions have checks of their own. */
  ghost predicate NoDeny(others: multiset<Region>) { forall r :: r in others ==> r.check != DenyAll }

  // ---------------------------------------------------------------- the monitor

  ghost function OffSet(enabled: seq<bool>): set<int> { set x | 0 <= x < |enabled| && !enabled[x] }

  class Monitor {
    var devs: seq<Device>
    var enabled: seq<bool>
    var settings: bv32
    const table: DeviceTable.Table
    const csu: Csu.Unit
    const emu: Emulator
    ghost var held: multiset<nat>
    ghost var others: multiset<Region>

    ghost function Off(): set<int>
      reads this
    {
      OffSet(enabled)
    }

    /** Counters, registers and regions agree with the devices' switches. */
    ghost predicate Agrees()
      reads this, table, csu, emu
    {
      Agreement() == true
    }

    ghost predicate Agreement()
      reads this, table, csu, emu
    {
      && |devs| == |enabled| && WellFormed(devs)
      && table.Valid() && |table.nodes| == |devs|
      && csu.Valid()
      && Sums(devs, enabled, held, others, csu.counts, multiset(emu.regions))
      && NoDeny(others)
    }

    /** The invariant of every run: in addition, only devices on chains of the known classes are off. */
    ghost predicate Valid()
      reads this, table, csu, emu
    {
      Agrees() && Accounted(devs, Off())
    }

    constructor (registers: seq<bv32>)
      requires |registers| == MAX_SLOT / 2
      ensures Valid() && devs == [] && held == multiset{} && others == multiset{}
      ensures fresh(table) && fresh(csu) && fresh(emu)
    {
      devs, enabled, settings := [], [], 0;
      table := new DeviceTable.Table();
      csu := new Csu.Unit(registers);
      emu := new Emulator();
      held, others := multiset{}, multiset{};
    }

    /** dt_enable_device */
    method EnableDevice(x: int, enable: bool) returns (can: bool)
      requires Agrees() && 0 <= x < |devs|
      modifies this`enabled, csu, emu
      ensures Agrees() && enabled == old(enabled)[x := enable] && can == CanProtect(devs[x])
    {
      var d := devs[x];
      can := |d.csu| > 0 && d.isMemory;
      if enabled[x] == enable { return; }
      SwitchDevice(csu, emu, d, x, enable, devs, enabled, held, others);
      enabled := enabled[x := enable];
    }

    /** The walk of dt_enable_class from a device to its nearest protectable ancestor. */
    method EnableChain(x: int, enable: bool)
      requires Agrees() && 0 <= x < |devs|
      modifies this`enabled, csu, emu
      ensures Agrees() && Switched(old(enabled), enabled, Chain(devs, x), enable)
    {
      var cur := x;
      ghost var done: set<int> := {};
      while cur != -1
        invariant -1 <= cur < |devs| && Agrees()
        invariant done + Chain(devs, cur) == Chain(devs, x)
        invariant Switched(old(enabled), enabled, done, enable)
        decreases cur + 1
      {
        ghost var was := enabled;
        var can := EnableDevice(cur, enable);
        SwitchedStep(old(enabled), was, done, cur, enable);
        done := done + {cur};
        if can { break; }
        cur := devs[cur].parent;
      }
    }

    /** device_has_class */
    method DeviceHasClass(x: int, name: string) returns (has: bool)
      requires 0 <= x < |devs|
      ensures has == HasClass(devs[x], name)
    {
      var c := 0;
      while c < |devs[x].classes|
        invariant 0 <= c <= |devs[x].classes|
        invariant forall k :: 0 <= k < c ==> devs[x].classes[k] != name
      {
        if devs[x].classes[c] == name { return true; }
        c := c + 1;
      }
      return false;
    }

    /** What dt_enable_class does with one device. */
    method Visit(dev: int, name: string, enable: bool)
      requires Agrees() && 0 <= dev < |devs| && Off() <= All(devs)
      modifies this`enabled, csu, emu
      ensures Agrees() && Off() <= All(devs) && Off() == Visited(devs, old(Off()), dev, name, enable)
    {
      var has := DeviceHasClass(dev, name);
      if has && enabled[dev] != enable {
        ChainIsWithin(devs, dev);
        ghost var was := enabled;
        EnableChain(dev, enable);
        SwitchedOff(was, enabled, Chain(devs, dev), enable);
      }
    }

    /** dt_enable_class */
    method EnableClass(name: string, enable: bool)
      requires Agrees() && Off() <= All(devs)
      modifies this`enabled, csu, emu
      ensures Agrees() && Off() <= All(devs)
      ensures enable ==> Off() == AfterEnable(devs, old(Off()), name)
      ensures !enable && Closed(devs, old(Off())) ==> Off() == AfterDisable(devs, old(Off()), name)
    {
      ghost var off := Off();
      var b := 0;
      var dev;
      ghost var k;
      ghost var visited: seq<int> := [];
      b, dev, k := table.Next(0, -1, 0);
      while dev != -1
        invariant Agrees() && Off() <= All(devs)
        invariant dev == -1 ==> visited == table.Order()
        invariant dev != -1 ==> table.IsAt(b, dev, k) && table.Visited(b, k) == visited + [dev]
        invariant Progress(devs, off, Off(), visited, name, enable)
        decreases |table.Order()| - |visited|
      {
        table.AtDevice(b, dev, k);
        ProgressStep(devs, off, Off(), visited, dev, name, enable);
        Visit(dev, name, enable);
        visited := visited + [dev];
        b, dev, k := table.Next(b, dev, k);
      }
      forall x | 0 <= x < |devs| ensures x in visited { table.OrderIsExact(x); }
      ProgressEnd(devs, off, Off(), visited, name, enable);
    }

    /** The first loop of the apply-settings part of cloak_entry_set. */
    method EnableAllClasses()
      requires Valid()
      modifies this`enabled, csu, emu
      ensures Agrees() && Off() == {}
    {
      assert Opens(OfAccount);
      EnableAllEnables(devs, Off(), NAMES);
      var c := 0;
      while c < 8
        invariant 0 <= c <= 8 && Agrees() && Off() <= All(devs)
        invariant EnableAll(devs, Off(), NAMES[c..]) == {}
      {
        assert NAMES[c..][1..] == NAMES[c + 1..];
        EnableClass(NAMES[c], true);
        c := c + 1;
      }
    }

    /** The second loop. */
    method DisableDenied(word: bv32)
      requires Agrees() && Off() == {}
      modifies this`enabled, csu, emu
      ensures Agrees() && Off() == Disabled(devs, word)
    {
      var c := 0;
      while c < 8
        invariant 0 <= c <= 8 && Agrees()
        invariant Off() == Chains(devs, DeniedDevices(devs, word, c))
      {
        DeniedStep(devs, word, c);
        if !Allows(word, c) {
          DisableKeepsClosed(devs, DeniedDevices(devs, word, c));
          ChainsUnion(devs, DeniedDevices(devs, word, c), Members(devs, NAMES[c]));
          EnableClass(NAMES[c], false);
        }
        c := c + 1;
      }
    }

    /** The confirmed or refused end of cloak_entry_set: the state depends on the word alone, not on the past. */
    method ApplySettings(word: bv32, confirmed: bool)
      requires Valid()
      modifies this`enabled, this`settings, csu, emu
      ensures Valid()
      ensures confirmed ==> Off() == Disabled(devs, word) && settings == word
      ensures confirmed ==> forall x :: 0 <= x < |devs| ==>
        (!enabled[x] <==> exists y :: 0 <= y < |devs| && x in Chain(devs, y) && IsDenied(devs[y], word))
      ensures !confirmed ==> enabled == old(enabled) && settings == old(settings)
    {
      if confirmed {
        EnableAllClasses();
        DisableDenied(word);
        DisabledIsAccounted(devs, word);
        settings := word;
        forall x | 0 <= x < |devs|
          ensures !enabled[x] <==> exists y :: 0 <= y < |devs| && x in Chain(devs, y) && IsDenied(devs[y], word)
        {
          DisabledByBits(devs, word, x);
          assert x in Off() <==> !enabled[x];
        }
      }
    }

    /** A device found in the tree joins the table, enabled. */
    method AddDevice(d: Device)
      requires Valid() && -1 <= d.parent < |devs| && SlotsOk(d.csu)
      modifies this`devs, this`enabled, table
      ensures Valid() && devs == old(devs) + [d] && enabled == old(enabled) + [true]
    {
      var x := table.Insert(d.node);
      AddKeepsSums(devs, enabled, held, others, csu.counts, multiset(emu.regions), d);
      assert WellFormed(devs + [d]);
      AddKeepsAccounted(devs, enabled, d);
      devs, enabled := devs + [d], enabled + [true];
    }

    /** A driver takes a slot and watches a region of its own (fb_acquire, the GPIO driver's probe). */
    method Hold(slot: nat, region: Region)
      requires Valid() && slot < MAX_SLOT && region.check != DenyAll
      modifies this`held, this`others, csu, emu
      ensures Valid() && held == old(held) + multiset{slot} && others == old(others) + multiset{region}
    {
      Take(csu, emu, slot, region, devs, enabled, held, others);
      held, others := held + multiset{slot}, others + multiset{region};
    }

    /** fb_release */
    method Unhold(slot: nat, region: Region)
      requires Valid() && slot < MAX_SLOT && slot in held && region in others
      modifies this`held, this`others, csu, emu
      ensures Valid() && old(held) == held + multiset{slot} && old(others) == others + multiset{region}
    {
      held, others := Release(csu, emu, slot, region, devs, enabled, held, others);
    }

    /** A disabled device that can be protected is cut off: its slots are protected and its addresses denied. */
    lemma OffIsCutOff(x: int)
      requires Agrees() && x in Off() && |devs[x].csu| > 0 && devs[x].isMemory
      ensures forall k :: 0 <= k < |devs[x].csu| ==> IsProtectedAt(devs[x].csu[k])
      ensures forall k, a ::
        0 <= k < |devs[x].resources| && Covers(DenyRegion(devs[x].resources[k]), a) ==> Denied(emu.regions, a)
    {
      OffIsProtected(x);
      OffIsDenied(x);
    }

    lemma OffIsProtected(x: int)
      requires Agrees() && x in Off() && CanProtect(devs[x])
      ensures forall k :: 0 <= k < |devs[x].csu| ==> IsProtectedAt(devs[x].csu[k])
    {
      assert Opens(OfSums);
      SwitchSlots(devs, enabled, x, false, held);
      forall k | 0 <= k < |devs[x].csu| ensures IsProtectedAt(devs[x].csu[k]) {
        assert devs[x].csu[k] in multiset(devs[x].csu);
        Csu.ByteOfCount(csu.regs, devs[x].csu[k], csu.counts[devs[x].csu[k]]);
      }
    }

    lemma OffIsDenied(x: int)
      requires Agrees() && x in Off() && CanProtect(devs[x])
      ensures forall k, a ::
        0 <= k < |devs[x].resources| && Covers(DenyRegion(devs[x].resources[k]), a) ==> Denied(emu.regions, a)
    {
      assert Opens(OfSums);
      forall k, a | 0 <= k < |devs[x].resources| && Covers(DenyRegion(devs[x].resources[k]), a)
        ensures Denied(emu.regions, a)
      {
        RegionIsListed(devs, enabled, x, k);
        assert DenyRegion(devs[x].resources[k]) in multiset(emu.regions);
      }
    }

    ghost predicate IsProtectedAt(slot: nat)
      reads csu
    {
      && slot < MAX_SLOT && slot < |csu.counts| && |csu.regs| == MAX_SLOT / 2
      && csu.counts[slot] > 0 && Csu.HasByte(csu.regs, slot, 0x33)
    }

    /** What a settings word denies is cut off: some device answers for each device of a denied class. */
    lemma DeniedClassIsCutOff(word: bv32, x: int)
      requires Agrees() && Off() == Disabled(devs, word)
      requires 0 <= x < |devs| && IsDenied(devs[x], word) && Guard(devs, x) >= 0
      ensures var g := Guard(devs, x);
        && (forall k :: 0 <= k < |devs[g].csu| ==> IsProtectedAt(devs[g].csu[k]))
        && forall k, a ::
          0 <= k < |devs[g].resources| && Covers(DenyRegion(devs[g].resources[k]), a) ==> Denied(emu.regions, a)
    {
      var g := Guard(devs, x);
      GuardIsOnChain(devs, x);
      DisabledByBits(devs, word, g);
      assert g in Off();
      OffIsCutOff(g);
    }

    /** Only addresses of a disabled device are denied. */
    lemma DeniedIsOff(a: int) returns (x: int, k: int)
      requires Agrees() && Denied(emu.regions, a)
      ensures x in Off() && |devs[x].csu| > 0 && devs[x].isMemory
      ensures 0 <= k < |devs[x].resources| && Covers(DenyRegion(devs[x].resources[k]), a)
    {
      assert Opens(OfSums);
      var i :| 0 <= i < |emu.regions| && emu.regions[i].check == DenyAll && Covers(emu.regions[i], a);
      var r := emu.regions[i];
      assert r in multiset(emu.regions);
      assert r in Regions(devs, enabled);
      x := InTotal(RegionParts(devs, enabled), r);
      assert r in RegionPart(devs[x], enabled[x]);
      assert r in DenyRegions(devs[x].resources);
      k :| 0 <= k < |devs[x].resources| && DenyRegions(devs[x].resources)[k] == r;
    }

    /** With no other holder, a slot that no disabled device needs is open. */
    lemma OthersAreOpen(slot: nat)
      requires Agrees() && slot < MAX_SLOT && slot !in held && slot !in Slots(devs, enabled)
      ensures |csu.regs| == MAX_SLOT / 2 && Csu.HasByte(csu.regs, slot, 0xFF)
    {
      assert Opens(OfSums);
      Csu.ByteOfCount(csu.regs, slot, csu.counts[slot]);
    }
  }

  /** Two monitors of the same devices and holders that were last given the same word protect alike, whatever came
      before. */
  lemma HistoryDoesNotMatter(m: Monitor, n: Monitor, word: bv32)
    requires m.Agrees() && n.Agrees() && m.devs == n.devs && m.held == n.held && m.others == n.others
    requires m.Off() == Disabled(m.devs, word) && n.Off() == Disabled(n.devs, word)
    ensures m.enabled == n.enabled && m.csu.counts == n.csu.counts
    ensures forall c: nat :: c < MAX_SLOT ==> Csu.FieldAt(m.csu.regs, c) == Csu.FieldAt(n.csu.regs, c)
    ensures multiset(m.emu.regions) == multiset(n.emu.regions)
  {
    assert Opens(OfSums);
    forall x | 0 <= x < |m.devs| ensures m.enabled[x] == n.enabled[x] {
      assert x in m.Off() <==> x in n.Off();
    }
  }

  lemma {:induction false} InTotal<T>(parts: seq<multiset<T>>, t: T) returns (i: int)
    requires t in Total(parts)
    ensures 0 <= i < |parts| && t in parts[i]
  {
    var n := |parts| - 1;
    if t in parts[n] { i := n; } else { i := InTotal(parts[..n], t); }
  }

  lemma RegionIsListed(devs: seq<Device>, enabled: seq<bool>, x: int, k: int)
    requires |devs| == |enabled| && 0 <= x < |devs| && !enabled[x] && CanProtect(devs[x])
    requires 0 <= k < |devs[x].resources|
    ensures DenyRegion(devs[x].resources[k]) in Regions(devs, enabled)
  {
    TotalUpdate(RegionParts(devs, enabled), x, multiset{});
    assert DenyRegions(devs[x].resources)[k] == DenyRegion(devs[x].resources[k]);
    assert DenyRegion(devs[x].resources[k]) in RegionPart(devs[x], enabled[x]);
  }

  lemma DeniedAreMembers(devs: seq<Device>, word: bv32)
    ensures DeniedDevices(devs, word, 8) <= MembersOf(devs, NAMES)
  {
  }

  ghost function Visited(devs: seq<Device>, off: set<int>, x: int, name: string, enable: bool): set<int>
    requires WellFormed(devs) && 0 <= x < |devs|
  {
    if !HasClass(devs[x], name) || (x in off) != enable then off
    else if enable then off - Chain(devs, x)
    else off + Chain(devs, x)
  }

  ghost function Seen(devs: seq<Device>, visited: seq<int>, name: string): set<int> {
    set x | x in visited && 0 <= x < |devs| && HasClass(devs[x], name)
  }

  /** The devices off once some devices have been visited by dt_enable_class. */
  ghost predicate Progress(devs: seq<Device>, before: set<int>, off: set<int>, visited: seq<int>, name: string,
                           enable: bool)
    requires WellFormed(devs) && before <= All(devs)
  {
    && (enable ==> off == before - Chains(devs, before * Seen(devs, visited, name)))
    && (!enable && Closed(devs, before) ==> off == before + Chains(devs, Seen(devs, visited, name)))
  }

  lemma ProgressStep(devs: seq<Device>, before: set<int>, off: set<int>, visited: seq<int>, x: int, name: string,
                     enable: bool)
    requires WellFormed(devs) && before <= All(devs) && 0 <= x < |devs|
    requires Progress(devs, before, off, visited, name, enable)
    ensures Progress(devs, before, Visited(devs, off, x, name, enable), visited + [x], name, enable)
  {
    var seen := Seen(devs, visited, name);
    if HasClass(devs[x], name) {
      assert Seen(devs, visited + [x], name) == seen + {x};
      if enable {
        EnableVisit(devs, before, before * seen, x);
        assert before * (seen + {x}) == before * seen + ({x} * before);
      } else if Closed(devs, before) {
        DisableVisit(devs, before, seen, x);
      }
    } else {
      assert Seen(devs, visited + [x], name) == seen;
    }
  }

  lemma ProgressEnd(devs: seq<Device>, before: set<int>, off: set<int>, visited: seq<int>, name: string, enable: bool)
    requires WellFormed(devs) && before <= All(devs) && Progress(devs, before, off, visited, name, enable)
    requires forall x :: 0 <= x < |devs| ==> x in visited
    ensures enable ==> off == AfterEnable(devs, before, name)
    ensures !enable && Closed(devs, before) ==> off == AfterDisable(devs, before, name)
  {
    assert Seen(devs, visited, name) == Members(devs, name);
  }

  lemma SwitchedStep(before: seq<bool>, after: seq<bool>, xs: set<int>, x: int, on: bool)
    requires Switched(before, after, xs, on) && 0 <= x < |after|
    ensures Switched(before, after[x := on], xs + {x}, on)
  {
  }

  lemma SwitchedOff(before: seq<bool>, after: seq<bool>, xs: set<int>, on: bool)
    requires Switched(before, after, xs, on) && forall y :: y in xs ==> 0 <= y < |before|
    ensures OffSet(after) == if on then OffSet(before) - xs else OffSet(before) + xs
  {
  }

  /** Exactly the devices of a set were given a new state. */
  ghost predicate Switched(before: seq<bool>, after: seq<bool>, xs: set<int>, on: bool) {
    |after| == |before| && forall y :: 0 <= y < |after| ==> after[y] == if y in xs then on else before[y]
  }
}
