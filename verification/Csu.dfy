/**
 The Central Security Unit driver (imx_csu.c): a reference count per config security level slot and
 one register byte per slot, two slots to a 32-bit register.
 */
module Csu {

  const MAX_CSL := 80
  const PROTECTED: bv32 := 0x33333333
  const OPEN: bv32 := 0xFFFFFFFF

  /** The register byte that a count calls for, in place. */
  function Level(csl: nat, count: int): bv32 {
    Field(if count > 0 then PROTECTED else OPEN, csl)
  }

  /** The bits of a register that belong to neither of its two slots. */
  function Reserved(value: bv32): bv32 { value & 0xFF00FF00 }

  /** The two bytes of a register that hold a slot each, in place. */
  function EvenByte(value: bv32): bv32 { value & 0xFF }
  function OddByte(value: bv32): bv32 { value & 0xFF0000 }

  /** A register after one slot's byte is set. */
  function EvenWritten(value: bv32, level: bv32): bv32 { (value & !0xFF) | (level & 0xFF) }
  function OddWritten(value: bv32, level: bv32): bv32 { (value & !0xFF0000) | (level & 0xFF0000) }

  /** Writing one slot's byte sets it and leaves every other bit of the register. */
  lemma EvenWrite(value: bv32, level: bv32)
    ensures EvenByte(EvenWritten(value, level)) == EvenByte(level)
    ensures OddByte(EvenWritten(value, level)) == OddByte(value)
    ensures Reserved(EvenWritten(value, level)) == Reserved(value)
  {
  }

  lemma OddWrite(value: bv32, level: bv32)
    ensures OddByte(OddWritten(value, level)) == OddByte(level)
    ensures EvenByte(OddWritten(value, level)) == EvenByte(value)
    ensures Reserved(OddWritten(value, level)) == Reserved(value)
  {
  }

  function Field(value: bv32, csl: nat): bv32 {
    if csl % 2 == 0 then EvenByte(value) else OddByte(value)
  }

  function Written(value: bv32, csl: nat, level: bv32): bv32 {
    if csl % 2 == 0 then EvenWritten(value, level) else OddWritten(value, level)
  }

  class Unit {
    var counts: seq<int>
    var regs: seq<bv32>

    /** Every slot's register byte is 0x33 exactly when its count is positive, and 0xFF otherwise. */
    ghost predicate Valid()
      reads this
    {
      && |counts| == MAX_CSL && |regs| == MAX_CSL / 2
      && forall c: nat :: c < MAX_CSL ==> counts[c] >= 0 && FieldAt(regs, c) == Level(c, counts[c])
    }

    /** csu_init: from whatever the registers hold, no slot is protected. */
    constructor (initial: seq<bv32>)
      requires |initial| == MAX_CSL / 2
      ensures Valid()
      ensures forall c: nat :: c < MAX_CSL ==> counts[c] == 0
      ensures forall r: nat :: r < MAX_CSL / 2 ==> Reserved(regs[r]) == Reserved(initial[r])
    {
      counts := seq(MAX_CSL, i => 1);
      regs := initial;
      new;
      var c := 0;
      while c < MAX_CSL
        invariant 0 <= c <= MAX_CSL && |counts| == MAX_CSL && |regs| == MAX_CSL / 2
        invariant forall k: nat :: k < MAX_CSL ==> counts[k] == if k < c then 0 else 1
        invariant forall k: nat :: k < c ==> FieldAt(regs, k) == Level(k, 0)
        invariant forall r: nat :: r < MAX_CSL / 2 ==> Reserved(regs[r]) == Reserved(initial[r])
      {
        SetCsl(c, false);
        c := c + 1;
      }
    }

    /** csu_set_csl: count protections, and write the register when the first comes or the last goes. */
    method SetCsl(csl: nat, protect: bool)
      requires |counts| == MAX_CSL && |regs| == MAX_CSL / 2 && csl < MAX_CSL
      requires !protect ==> counts[csl] >= 1
      modifies this
      ensures |counts| == MAX_CSL && |regs| == MAX_CSL / 2
      ensures counts == old(counts)[csl := old(counts)[csl] + (if protect then 1 else -1)]
      ensures forall c: nat :: c < MAX_CSL && c != csl ==> FieldAt(regs, c) == FieldAt(old(regs), c)
      ensures forall r: nat :: r < MAX_CSL / 2 ==> Reserved(regs[r]) == Reserved(old(regs)[r])
      ensures old(counts)[csl] == (if protect then 0 else 1) ==> FieldAt(regs, csl) == Level(csl, counts[csl])
      ensures old(counts)[csl] != (if protect then 0 else 1) ==> regs == old(regs)
      ensures old(Valid()) ==> Valid()
      ensures old(Valid()) && csl % 2 == 0 ==> regs[csl / 2] & 0xFF == if counts[csl] > 0 then 0x33 else 0xFF
      ensures old(Valid()) && csl % 2 == 1 ==>
        regs[csl / 2] & 0xFF_0000 == if counts[csl] > 0 then 0x33_0000 else 0xFF_0000
    {
      Levels(csl);
      var update;
      if protect {
        update := counts[csl] == 0;
        counts := counts[csl := counts[csl] + 1];
      } else {
        update := counts[csl] == 1;
        counts := counts[csl := counts[csl] - 1];
      }
      if update {
        WriteSlot(csl, if protect then PROTECTED else OPEN);
      }
    }

    /** Read, modify and write the register of a slot. */
    method WriteSlot(csl: nat, level: bv32)
      requires |regs| == MAX_CSL / 2 && csl < MAX_CSL
      modifies this`regs
      ensures |regs| == MAX_CSL / 2
      ensures FieldAt(regs, csl) == Field(level, csl)
      ensures forall c: nat :: c < MAX_CSL && c != csl ==> FieldAt(regs, c) == FieldAt(old(regs), c)
      ensures forall r: nat :: r < MAX_CSL / 2 ==> Reserved(regs[r]) == Reserved(old(regs)[r])
    {
      var value := regs[csl / 2];
      if csl % 2 == 0 { EvenWrite(value, level); } else { OddWrite(value, level); }
      regs := regs[csl / 2 := Written(value, csl, level)];
    }

    /** csu_is_csl_protected agrees with the register. */
    method IsProtected(csl: nat) returns (b: bool)
      requires Valid() && csl < MAX_CSL
      ensures csl % 2 == 0 ==> regs[csl / 2] & 0xFF == if b then 0x33 else 0xFF
      ensures csl % 2 == 1 ==> regs[csl / 2] & 0xFF_0000 == if b then 0x33_0000 else 0xFF_0000
    {
      b := counts[csl] > 0;
      Levels(csl);
    }
  }

  function FieldAt(regs: seq<bv32>, csl: nat): bv32
    requires csl / 2 < |regs|
  {
    Field(regs[csl / 2], csl)
  }

  /** The bytes of the two levels, in place. */
  lemma Levels(csl: nat)
    ensures csl % 2 == 0 ==> Field(PROTECTED, csl) == 0x33 && Field(OPEN, csl) == 0xFF
    ensures csl % 2 == 1 ==> Field(PROTECTED, csl) == 0x33_0000 && Field(OPEN, csl) == 0xFF_0000
  {
    assert PROTECTED & 0xFF == 0x33 && OPEN & 0xFF == 0xFF;
    assert PROTECTED & 0xFF0000 == 0x33_0000 && OPEN & 0xFF0000 == 0xFF_0000;
  }

  /** A slot's byte in the registers: bits 0 to 7 for an even slot, 16 to 23 for an odd one. */
  predicate HasByte(regs: seq<bv32>, csl: nat, byte: bv32)
    requires csl / 2 < |regs|
  {
    if csl % 2 == 0 then regs[csl / 2] & 0xFF == byte else regs[csl / 2] & 0xFF_0000 == byte << 16
  }

  lemma ByteOfCount(regs: seq<bv32>, csl: nat, count: int)
    requires csl / 2 < |regs| && FieldAt(regs, csl) == Level(csl, count)
    ensures HasByte(regs, csl, if count > 0 then 0x33 else 0xFF)
  {
    Levels(csl);
  }
}
