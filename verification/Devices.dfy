/**
 The device tree as the enforcement code sees it (drivers/dt.c): devices in the order in which they
 were created, each after its parent.  Switching a device also switches its ancestors up to the
 first one the hardware can protect; that set is the device's chain.
 */
module Devices {

  datatype Resource = Resource(address: int, size: int)

  /** parent is -1 for the root; isMemory says that the device sits on a simple bus. */
  datatype Device = Device(node: int, parent: int, csu: seq<nat>, isMemory: bool,
                           resources: seq<Resource>, classes: seq<string>)

  predicate CanProtect(d: Device) { |d.csu| > 0 && d.isMemory }

  const MAX_SLOT := 80

  ghost predicate WellFormed(devs: seq<Device>) {
    forall i :: 0 <= i < |devs| ==>
      -1 <= devs[i].parent < i && SlotsOk(devs[i].csu)
  }

  ghost predicate SlotsOk(slots: seq<nat>) { forall k :: 0 <= k < |slots| ==> slots[k] < MAX_SLOT }

  predicate HasClass(d: Device, name: string) {
    exists c :: 0 <= c < |d.classes| && d.classes[c] == name
  }

  /** The devices that switching device x switches. */
  ghost function Chain(devs: seq<Device>, x: int): set<int>
    requires WellFormed(devs) && -1 <= x < |devs|
    decreases x + 1
  {
    if x == -1 then {}
    else if CanProtect(devs[x]) then {x}
    else {x} + Chain(devs, devs[x].parent)
  }

  lemma {:induction false} ChainIsWithin(devs: seq<Device>, x: int)
    requires WellFormed(devs) && -1 <= x < |devs|
    ensures forall y :: y in Chain(devs, x) ==> 0 <= y <= x
    ensures x >= 0 ==> x in Chain(devs, x)
    decreases x + 1
  {
    if x >= 0 && !CanProtect(devs[x]) { ChainIsWithin(devs, devs[x].parent); }
  }

  /** The chain of a device on a chain is part of that chain. */
  lemma {:induction false} ChainIsClosed(devs: seq<Device>, x: int, y: int)
    requires WellFormed(devs) && -1 <= x < |devs| && y in Chain(devs, x)
    ensures 0 <= y < |devs| && Chain(devs, y) <= Chain(devs, x)
    decreases x + 1
  {
    ChainIsWithin(devs, x);
    if y != x { ChainIsClosed(devs, devs[x].parent, y); }
  }

  /** The device k parents up, or -1 past the last one. */
  ghost function Up(devs: seq<Device>, x: int, k: nat): int
    requires WellFormed(devs) && -1 <= x < |devs|
    decreases k
  {
    if k == 0 || x == -1 then x else Up(devs, devs[x].parent, k - 1)
  }

  lemma {:induction false} UpIsDevice(devs: seq<Device>, x: int, k: nat)
    requires WellFormed(devs) && -1 <= x < |devs|
    ensures -1 <= Up(devs, x, k) <= x
    decreases k
  {
    if k > 0 && x != -1 { UpIsDevice(devs, devs[x].parent, k - 1); }
  }

  /** y is the device k parents up from x, and none below it on the way has both protection slots and memory. */
  ghost predicate Climbs(devs: seq<Device>, x: int, y: int, k: nat)
    requires WellFormed(devs) && -1 <= x < |devs|
  {
    y >= 0 && Up(devs, x, k) == y && forall j: nat :: j < k ==> CannotProtect(devs, Up(devs, x, j))
  }

  predicate CannotProtect(devs: seq<Device>, z: int) { 0 <= z < |devs| ==> devs[z].csu == [] || !devs[z].isMemory }

  /** The chain of a device is the device and its parents, up to and with the first that can be protected. */
  lemma {:induction false} ChainIsClimbed(devs: seq<Device>, x: int, y: int)
    requires WellFormed(devs) && -1 <= x < |devs|
    ensures y in Chain(devs, x) <==> exists k: nat :: Climbs(devs, x, y, k)
    decreases x + 1
  {
    if x >= 0 {
      var up := devs[x].parent;
      ChainIsClimbed(devs, up, y);
      if y in Chain(devs, x) {
        if y == x {
          assert Climbs(devs, x, y, 0);
        } else {
          var k: nat :| Climbs(devs, up, y, k);
          ClimbsOneMore(devs, x, y, k);
        }
      }
      if k: nat :| Climbs(devs, x, y, k) {
        ClimbsOneLess(devs, x, y, k);
      }
    }
  }

  lemma ClimbsOneMore(devs: seq<Device>, x: int, y: int, k: nat)
    requires WellFormed(devs) && 0 <= x < |devs| && Climbs(devs, devs[x].parent, y, k) && !CanProtect(devs[x])
    ensures Climbs(devs, x, y, k + 1)
  {
    forall j: nat | j < k + 1 ensures CannotProtect(devs, Up(devs, x, j)) {
      if j > 0 { assert Up(devs, x, j) == Up(devs, devs[x].parent, j - 1); }
    }
  }

  lemma ClimbsOneLess(devs: seq<Device>, x: int, y: int, k: nat)
    requires WellFormed(devs) && 0 <= x < |devs| && Climbs(devs, x, y, k)
    ensures k == 0 ==> y == x
    ensures k > 0 ==> !CanProtect(devs[x]) && Climbs(devs, devs[x].parent, y, k - 1)
  {
    if k > 0 {
      assert CannotProtect(devs, Up(devs, x, 0));
      forall j: nat | j < k - 1 ensures CannotProtect(devs, Up(devs, devs[x].parent, j)) {
        assert CannotProtect(devs, Up(devs, x, j + 1));
      }
    }
  }

  /** The nearest protectable device from x upwards, -1 if there is none. */
  ghost function Guard(devs: seq<Device>, x: int): (g: int)
    requires WellFormed(devs) && -1 <= x < |devs|
    ensures -1 <= g <= x
    decreases x + 1
  {
    if x == -1 || CanProtect(devs[x]) then x else Guard(devs, devs[x].parent)
  }

  /** The guard is the one protectable device of the chain. */
  lemma {:induction false} GuardIsOnChain(devs: seq<Device>, x: int)
    requires WellFormed(devs) && -1 <= x < |devs|
    ensures Guard(devs, x) >= 0 ==> CanProtect(devs[Guard(devs, x)]) && Guard(devs, x) in Chain(devs, x)
    ensures forall y :: y in Chain(devs, x) && 0 <= y < |devs| && CanProtect(devs[y]) ==> y == Guard(devs, x)
    decreases x + 1
  {
    if x >= 0 && !CanProtect(devs[x]) { GuardIsOnChain(devs, devs[x].parent); }
  }

  /** A later device changes no earlier chain. */
  lemma {:induction false} ChainGrows(devs: seq<Device>, d: Device, x: int)
    requires WellFormed(devs) && WellFormed(devs + [d]) && -1 <= x < |devs|
    ensures Chain(devs + [d], x) == Chain(devs, x)
    decreases x + 1
  {
    if x >= 0 { ChainGrows(devs, d, devs[x].parent); }
  }

  /** The devices of a class. */
  ghost function Members(devs: seq<Device>, name: string): set<int> {
    set x | 0 <= x < |devs| && HasClass(devs[x], name)
  }

  predicate IsDevice(devs: seq<Device>, x: int) { 0 <= x < |devs| }

  ghost function All(devs: seq<Device>): set<int> { set x | 0 <= x < |devs| && IsDevice(devs, x) }

  /** All devices on the chains of the devices of xs. */
  ghost function Chains(devs: seq<Device>, xs: set<int>): set<int>
    requires WellFormed(devs) && xs <= All(devs)
  {
    set x, y | x in xs && y in Chain(devs, x) :: y
  }

  lemma ChainsAdd(devs: seq<Device>, xs: set<int>, x: int)
    requires WellFormed(devs) && xs <= All(devs) && 0 <= x < |devs|
    ensures Chains(devs, xs + {x}) == Chains(devs, xs) + Chain(devs, x)
  {
  }

  lemma InChains(devs: seq<Device>, xs: set<int>, x: int)
    requires WellFormed(devs) && xs <= All(devs) && 0 <= x < |devs| && x in Chains(devs, xs)
    ensures Chain(devs, x) <= Chains(devs, xs)
  {
    var z :| z in xs && x in Chain(devs, z);
    ChainIsClosed(devs, z, x);
    forall y | y in Chain(devs, x) ensures y in Chains(devs, xs) {
      assert z in xs && y in Chain(devs, z);
    }
  }

  // ---------------------------------------------------------------- switching one device of a class

  /** Every disabled device has its whole chain disabled. */
  ghost predicate Closed(devs: seq<Device>, off: set<int>)
    requires WellFormed(devs) && off <= All(devs)
  {
    forall x :: x in off ==> Chain(devs, x) <= off
  }

  /** Visiting one more device of a class being enabled. */
  lemma EnableVisit(devs: seq<Device>, off: set<int>, seen: set<int>, x: int)
    requires WellFormed(devs) && off <= All(devs) && seen <= off && 0 <= x < |devs|
    ensures var now := off - Chains(devs, seen);
      off - Chains(devs, seen + ({x} * off)) == if x in now then now - Chain(devs, x) else now
  {
    if x in off {
      assert {x} * off == {x};
      ChainsAdd(devs, seen, x);
      if x in Chains(devs, seen) { InChains(devs, seen, x); }
    } else {
      assert seen + ({x} * off) == seen;
    }
  }

  /** Visiting one more device of a class being disabled. */
  lemma DisableVisit(devs: seq<Device>, off: set<int>, seen: set<int>, x: int)
    requires WellFormed(devs) && off <= All(devs) && seen <= All(devs) && 0 <= x < |devs| && Closed(devs, off)
    ensures var now := off + Chains(devs, seen);
      off + Chains(devs, seen + {x}) == if x in now then now else now + Chain(devs, x)
  {
    ChainsAdd(devs, seen, x);
    if x in Chains(devs, seen) { InChains(devs, seen, x); }
  }

  // ---------------------------------------------------------------- applying settings

  /** The devices of any class in the list. */
  ghost function MembersOf(devs: seq<Device>, names: seq<string>): set<int> {
    set x | 0 <= x < |devs| && exists k :: 0 <= k < |names| && HasClass(devs[x], names[k])
  }

  /** Every disabled device is on the chain of a disabled device of one of the classes. */
  ghost predicate Explained(devs: seq<Device>, off: set<int>, names: seq<string>)
    requires WellFormed(devs) && off <= All(devs)
  {
    forall y :: y in off ==> ExplainedAt(devs, off, names, y)
  }

  ghost predicate ExplainedAt(devs: seq<Device>, off: set<int>, names: seq<string>, y: int)
    requires WellFormed(devs) && off <= All(devs)
  {
    exists x :: x in off && x in MembersOf(devs, names) && y in Chain(devs, x)
  }

  ghost function AfterEnable(devs: seq<Device>, off: set<int>, name: string): set<int>
    requires WellFormed(devs) && off <= All(devs)
  {
    off - Chains(devs, off * Members(devs, name))
  }

  ghost function AfterDisable(devs: seq<Device>, off: set<int>, name: string): set<int>
    requires WellFormed(devs) && off <= All(devs)
  {
    off + Chains(devs, Members(devs, name))
  }

  /** A device whose chain is not gone is of another class than the one enabled. */
  lemma OtherClass(devs: seq<Device>, off: set<int>, names: seq<string>, x: int)
    requires WellFormed(devs) && off <= All(devs) && |names| > 0
    requires x in off && x in MembersOf(devs, names) && x !in Chains(devs, off * Members(devs, names[0]))
    ensures x in MembersOf(devs, names[1..])
  {
    ChainIsWithin(devs, x);
    assert x !in Members(devs, names[0]);
    var k :| 0 <= k < |names| && HasClass(devs[x], names[k]);
    assert names[1..][k - 1] == names[k];
  }

  /** Enabling the first class leaves only devices that the other classes explain. */
  lemma EnableOneClass(devs: seq<Device>, off: set<int>, names: seq<string>)
    requires WellFormed(devs) && off <= All(devs) && |names| > 0 && Explained(devs, off, names)
    ensures Explained(devs, AfterEnable(devs, off, names[0]), names[1..])
  {
    forall y | y in AfterEnable(devs, off, names[0])
      ensures ExplainedAt(devs, AfterEnable(devs, off, names[0]), names[1..], y)
    {
      StillExplained(devs, off, names, y);
    }
  }

  lemma StillExplained(devs: seq<Device>, off: set<int>, names: seq<string>, y: int)
    requires WellFormed(devs) && off <= All(devs) && |names| > 0 && ExplainedAt(devs, off, names, y)
    requires y in AfterEnable(devs, off, names[0])
    ensures ExplainedAt(devs, AfterEnable(devs, off, names[0]), names[1..], y)
  {
    var x :| x in off && x in MembersOf(devs, names) && y in Chain(devs, x);
    var gone := off * Members(devs, names[0]);
    assert x !in Chains(devs, gone) by {
      if x in Chains(devs, gone) { InChains(devs, gone, x); }
    }
    OtherClass(devs, off, names, x);
  }

  /** Enabling all classes in turn. */
  ghost function EnableAll(devs: seq<Device>, off: set<int>, names: seq<string>): set<int>
    requires WellFormed(devs) && off <= All(devs)
    decreases |names|
  {
    if names == [] then off else EnableAll(devs, AfterEnable(devs, off, names[0]), names[1..])
  }

  lemma {:induction false} EnableAllEnables(devs: seq<Device>, off: set<int>, names: seq<string>)
    requires WellFormed(devs) && off <= All(devs) && Explained(devs, off, names)
    ensures EnableAll(devs, off, names) == {}
    decreases |names|
  {
    if names != [] {
      EnableOneClass(devs, off, names);
      EnableAllEnables(devs, AfterEnable(devs, off, names[0]), names[1..]);
    }
  }

  /** Disabling a class keeps closure, and adds exactly the class's chains. */
  lemma DisableKeepsClosed(devs: seq<Device>, xs: set<int>)
    requires WellFormed(devs) && xs <= All(devs)
    ensures Chains(devs, xs) <= All(devs) && Closed(devs, Chains(devs, xs))
  {
    forall y | y in Chains(devs, xs) ensures y in All(devs) && Chain(devs, y) <= Chains(devs, xs) {
      var x :| x in xs && y in Chain(devs, x);
      ChainIsWithin(devs, x);
      InChains(devs, xs, y);
    }
  }

  lemma ChainsUnion(devs: seq<Device>, xs: set<int>, ys: set<int>)
    requires WellFormed(devs) && xs <= All(devs) && ys <= All(devs)
    ensures Chains(devs, xs + ys) == Chains(devs, xs) + Chains(devs, ys)
  {
  }

  /** The chains of some of the classes' devices are explained by the classes. */
  lemma ChainsAreExplained(devs: seq<Device>, xs: set<int>, names: seq<string>)
    requires WellFormed(devs) && xs <= MembersOf(devs, names)
    ensures Chains(devs, xs) <= All(devs) && Explained(devs, Chains(devs, xs), names)
  {
    DisableKeepsClosed(devs, xs);
    forall y | y in Chains(devs, xs)
      ensures ExplainedAt(devs, Chains(devs, xs), names, y)
    {
      var x :| x in xs && y in Chain(devs, x);
      ChainIsWithin(devs, x);
    }
  }

  lemma ExplainedGrows(devs: seq<Device>, d: Device, off: set<int>, names: seq<string>)
    requires WellFormed(devs) && WellFormed(devs + [d]) && off <= All(devs) && Explained(devs, off, names)
    ensures off <= All(devs + [d]) && Explained(devs + [d], off, names)
  {
    forall y | y in off ensures off <= All(devs + [d]) && ExplainedAt(devs + [d], off, names, y) {
      ExplainedAtGrows(devs, d, off, names, y);
    }
  }

  lemma ExplainedAtGrows(devs: seq<Device>, d: Device, off: set<int>, names: seq<string>, y: int)
    requires WellFormed(devs) && WellFormed(devs + [d]) && off <= All(devs) && ExplainedAt(devs, off, names, y)
    ensures off <= All(devs + [d]) && ExplainedAt(devs + [d], off, names, y)
  {
    var x :| x in off && x in MembersOf(devs, names) && y in Chain(devs, x);
    ChainGrows(devs, d, x);
    assert (devs + [d])[x] == devs[x];
    assert x in MembersOf(devs + [d], names);
    forall z | z in off ensures z in All(devs + [d]) { assert IsDevice(devs, z) && IsDevice(devs + [d], z); }
  }
}
