/**
 The GPIO driver's check of emulated accesses (imx_gpio.c): pins taken over by the secure world keep
 their bits whatever the normal world writes.
 A 32-bit word is the set of the places of its one bits.
 */
module Gpio {
  import opened Emulation

  type Word = w: set<int> | forall b :: b in w ==> 0 <= b < 32

  /** The offsets of a port's registers; edge is negative where the hardware has no such register. */
  datatype Layout = Layout(dr: int, gdir: int, psr: int, icr1: int, icr2: int, imr: int, isr: int, edge: int)

  predicate LayoutOk(l: Layout) {
    && 0 <= l.dr && 0 <= l.gdir && 0 <= l.icr1 && 0 <= l.icr2 && 0 <= l.imr && 0 <= l.isr && 0 <= l.psr
    && l.dr !in {l.gdir, l.psr, l.icr1, l.icr2, l.imr, l.isr, l.edge}
    && l.gdir !in {l.psr, l.icr1, l.icr2, l.imr, l.isr, l.edge} && l.psr !in {l.icr1, l.icr2, l.imr, l.isr, l.edge}
    && l.icr1 !in {l.icr2, l.imr, l.isr, l.edge} && l.icr2 !in {l.imr, l.isr, l.edge} && l.imr !in {l.isr, l.edge}
      && l.isr != l.edge
  }

  const IMX1 := Layout(0x1c, 0x00, 0x24, 0x28, 0x2c, 0x30, 0x34, -22)
  const IMX31 := Layout(0x00, 0x04, 0x08, 0x0c, 0x10, 0x14, 0x18, -22)
  const IMX35 := Layout(0x00, 0x04, 0x08, 0x0c, 0x10, 0x14, 0x18, 0x1c)

  /** The kinds of ports that the driver knows. */
  datatype Kind = Imx1 | Imx31 | Imx35

  function LayoutOf(kind: Kind): (l: Layout)
    ensures LayoutOk(l)
  {
    match kind
    case Imx1 => IMX1
    case Imx31 => IMX31
    case Imx35 => IMX35
  }

  function Read(regs: map<int, Word>, offset: int): Word { if offset in regs then regs[offset] else {} }

  /** The bits of an interrupt configuration register that belong to pins of a set: two bits to a pin, 16 pins to a
      register. */
  ghost function Fields(pins: Word, base: int): set<int> { set b | 0 <= b < 32 && b / 2 + base in pins }

  /** What the normal world must not change: the secure pins' bits in four kinds of registers. */
  ghost predicate Kept(l: Layout, secure: Word, before: map<int, Word>, after: map<int, Word>) {
    && Read(after, l.dr) * secure == Read(before, l.dr) * secure
    && Read(after, l.gdir) * secure == Read(before, l.gdir) * secure
    && (l.edge >= 0 ==> Read(after, l.edge) * secure == Read(before, l.edge) * secure)
    && Read(after, l.icr1) * Fields(secure, 0) == Read(before, l.icr1) * Fields(secure, 0)
    && Read(after, l.icr2) * Fields(secure, 16) == Read(before, l.icr2) * Fields(secure, 16)
  }

  lemma KeptTwice(l: Layout, secure: Word, a: map<int, Word>, b: map<int, Word>, c: map<int, Word>)
    requires Kept(l, secure, a, b) && Kept(l, secure, b, c)
    ensures Kept(l, secure, a, c)
  {
  }

  lemma NothingLeft(a: set<int>, b: set<int>)
    ensures a - b == {} <==> a <= b
  {
    if a - b == {} {
      forall x | x in a ensures x in b { assert x !in a - b; }
    }
  }

  /** What it means for a pin taken over: its bit of the data, direction and edge registers is as it was, and so are its
      two bits of the configuration register for its half of the port, bits 2n and 2n + 1 for the n-th pin of the
      half. */
  lemma PinIsKept(l: Layout, secure: Word, before: map<int, Word>, after: map<int, Word>, pin: int)
    requires Kept(l, secure, before, after) && pin in secure
    ensures pin in Read(after, l.dr) <==> pin in Read(before, l.dr)
    ensures pin in Read(after, l.gdir) <==> pin in Read(before, l.gdir)
    ensures l.edge >= 0 ==> (pin in Read(after, l.edge) <==> pin in Read(before, l.edge))
    ensures
      var icr, n := (if pin < 16 then l.icr1 else l.icr2), (if pin < 16 then pin else pin - 16);
      && (2 * n in Read(after, icr) <==> 2 * n in Read(before, icr))
      && (2 * n + 1 in Read(after, icr) <==> 2 * n + 1 in Read(before, icr))
  {
    var icr, base := (if pin < 16 then l.icr1 else l.icr2), (if pin < 16 then 0 else 16);
    assert Read(after, icr) * Fields(secure, base) == Read(before, icr) * Fields(secure, base);
    SameBit(Read(before, l.dr), Read(after, l.dr), secure, pin);
    SameBit(Read(before, l.gdir), Read(after, l.gdir), secure, pin);
    if l.edge >= 0 { SameBit(Read(before, l.edge), Read(after, l.edge), secure, pin); }
    SameBit(Read(before, icr), Read(after, icr), Fields(secure, base), 2 * (pin - base));
    SameBit(Read(before, icr), Read(after, icr), Fields(secure, base), 2 * (pin - base) + 1);
  }

  lemma SameBit(a: set<int>, b: set<int>, mask: set<int>, bit: int)
    requires b * mask == a * mask && bit in mask
    ensures bit in b <==> bit in a
  {
    assert bit in b <==> bit in b * mask;
    assert bit in a <==> bit in a * mask;
  }

  datatype Access = Load(offset: int) | Store(offset: int, value: Word)

  class Port {
    var regs: map<int, Word>
    var secure: Word
    var passed: Word
    const l: Layout

    /** A port of a known kind, with no pin taken over. */
    constructor (kind: Kind, regs: map<int, Word>)
      ensures LayoutOk(l) && l == LayoutOf(kind) && this.regs == regs && secure == {} && passed == {}
    {
      l := LayoutOf(kind);
      this.regs, secure, passed := regs, {}, {};
    }

    /** The loop that builds the mask for an interrupt configuration register. */
    method IcrMask(base: int) returns (mask: Word)
      requires base == 0 || base == 16
      ensures mask == Fields(secure, base)
    {
      mask := {};
      var i := 0;
      while i < 16
        invariant 0 <= i <= 16
        invariant mask == set b | 0 <= b < 2 * i && b / 2 + base in secure
      {
        if i + base in secure { mask := mask + {2 * i, 2 * i + 1}; }
        i := i + 1;
      }
    }

    /** gpio_emu_check */
    method Check(offset: int, moment: Moment, value: Word) returns (allowed: bool, value': Word)
      requires LayoutOk(l)
      modifies this`regs, this`passed
      ensures moment != ReadAfter ==> value' == value
      ensures moment == ReadAfter && (offset == l.dr || offset == l.gdir) ==> value' == value - secure
      ensures moment == ReadAfter && (offset == l.isr || offset == l.imr) ==> value' == (value - secure) + passed
      ensures moment == ReadAfter && offset !in {l.dr, l.gdir, l.isr, l.imr} ==> value' == value
      ensures moment == Write && allowed ==> Kept(l, secure, regs, regs[offset := value])
      ensures moment == Write && offset != l.isr && offset != l.imr ==>
        (allowed <==> Kept(l, secure, old(regs), old(regs)[offset := value]))
      ensures moment == Write && offset == l.isr ==> (allowed <==> value * secure == {} || value <= old(passed))
      ensures offset != l.isr || !allowed ==> regs == old(regs) && passed == old(passed)
      ensures Kept(l, secure, old(regs), regs) && (moment != Write ==> regs == old(regs) && passed == old(passed))
      ensures moment != Write ==> allowed
      ensures offset == l.imr && moment == Write ==> (allowed <==> secure <= value)
      ensures passed <= old(passed)
    {
      allowed, value' := true, value;
      if offset == l.dr {
        if moment == Write {
          if Read(regs, l.dr) * secure != value * secure { allowed := false; }
        } else if moment == ReadAfter {
          value' := value - secure;
        }
      } else if offset == l.gdir {
        if moment == Write {
          if Read(regs, l.gdir) * secure != value * secure { allowed := false; }
        } else if moment == ReadAfter {
          value' := value - secure;
        }
      } else if offset == l.isr {
        if moment == Write {
          if value * secure != {} {
            assert value * passed == value <==> value <= passed;
            if value * passed == value {
              passed := passed - value;
              regs := regs[l.imr := Read(regs, l.imr) + value];
            } else {
              allowed := false;
            }
          }
        } else if moment == ReadAfter {
          value' := (value - secure) + passed;
        }
      } else if offset == l.imr {
        if moment == Write {
          NothingLeft(secure, value);
          if secure - value != {} { allowed := false; }
        } else if moment == ReadAfter {
          value' := (value - secure) + passed;
        }
      } else if offset == l.psr {
      } else if offset >= 0 && offset == l.edge {
        if moment == Write {
          if value * secure != Read(regs, l.edge) * secure { allowed := false; }
        }
      } else if offset == l.icr1 || offset == l.icr2 {
        var mask := IcrMask(if offset == l.icr2 then 16 else 0);
        if moment == Write {
          if value * mask != Read(regs, offset) * mask { allowed := false; }
        }
      }
    }

    /** __gpio_acquire and gpio_release: a pin is taken over, and given back, once. */
    method Acquire(pin: int) returns (ok: bool)
      requires 0 <= pin < 32
      modifies this`secure
      ensures ok <==> pin !in old(secure)
      ensures secure == old(secure) + {pin}
    {
      if pin in secure { return false; }
      secure := secure + {pin};
      ok := true;
    }

    method Release(pin: int) returns (ok: bool)
      requires 0 <= pin < 32
      modifies this`secure
      ensures ok <==> pin in old(secure)
      ensures secure == old(secure) - {pin}
    {
      if pin !in secure { return false; }
      secure := secure - {pin};
      ok := true;
    }

    /** An emulated load of a word in a region that only the port's check covers. */
    method Load(offset: int) returns (reg: Word)
      requires LayoutOk(l)
      modifies this`regs, this`passed
      ensures regs == old(regs) && passed == old(passed)
      ensures offset == l.dr || offset == l.gdir ==> reg * secure == {} && reg == Read(regs, offset) - secure
      ensures offset == l.isr || offset == l.imr ==> reg == (Read(regs, offset) - secure) + passed
      ensures offset !in {l.dr, l.gdir, l.isr, l.imr} ==> reg == Read(regs, offset)
    {
      var allowed, value := Check(offset, ReadBefore, {});
      reg := {};
      if allowed {
        allowed, reg := Check(offset, ReadAfter, Read(regs, offset));
      }
    }

    /** An emulated store of a word. */
    method Store(offset: int, value: Word)
      requires LayoutOk(l)
      modifies this`regs, this`passed
      ensures Kept(l, secure, old(regs), regs) && passed <= old(passed)
      ensures offset != l.isr && offset != l.imr ==>
        regs == if Kept(l, secure, old(regs), old(regs)[offset := value]) then old(regs)[offset := value] else old(regs)
      ensures offset == l.imr ==> regs == if secure <= value then old(regs)[offset := value] else old(regs)
      ensures offset == l.isr && value * secure != {} && !(value <= old(passed)) ==>
        regs == old(regs) && passed == old(passed)
    {
      ghost var first := regs;
      var allowed, v := Check(offset, Write, value);
      if allowed {
        KeptTwice(l, secure, first, regs, regs[offset := v]);
        regs := regs[offset := v];
      }
    }

    /** Any run of emulated accesses. */
    method Run(accesses: seq<Access>)
      requires LayoutOk(l)
      modifies this`regs, this`passed
      ensures Kept(l, secure, old(regs), regs) && passed <= old(passed)
    {
      var i := 0;
      while i < |accesses|
        invariant 0 <= i <= |accesses| && Kept(l, secure, old(regs), regs) && passed <= old(passed)
      {
        ghost var was := regs;
        match accesses[i] {
          case Load(offset) =>
            var reg := Load(offset);
          case Store(offset, value) =>
            Store(offset, value);
        }
        KeptTwice(l, secure, old(regs), was, regs);
        i := i + 1;
      }
    }
  }
}
