/**
 The short descriptors of the ARMv7 tables (section B3.5 of the ARM Architecture Reference Manual,
 DDI 0406C): the bits that core_mmu_v7.c sets for a region's attributes, and what the hardware reads
 off them with the access flag enabled and memory types by index.
 A descriptor is a number; the base address and the attribute bits never overlap, so that setting
 bits is adding.
 */
module Descriptors {
  import opened Arith
  import opened Seal

  const SECTION := 0x10_0000
  const PAGE := 0x1000
  const TABLE_SIZE := 0x400

  /** The attribute flags of a mapped region, and the two build options that matter for descriptors. */
  datatype Attr = Attr(px: bool, pw: bool, pr: bool, ux: bool, uw: bool, ur: bool, global: bool, secure: bool,
                       texcb: int, smp: bool, pxn: bool)

  predicate AttrOk(a: Attr) { 0 <= a.texcb < 8 }

  function Bit(on: bool, weight: int): int { if on then weight else 0 }

  /** Reading is implied by writing and executing, and for the core by reading for users. */
  function Reads(a: Attr): bool { a.pr || a.px || a.pw || a.ur || a.ux || a.uw }
  function UserReads(a: Attr): bool { a.ur || a.ux || a.uw }
  function Writes(a: Attr): bool { a.pw || a.uw }

  /** mattr_to_desc at level 1: a section, never a super section. */
  function SectionBits(a: Attr): (d: int)
    requires AttrOk(a)
    ensures 0 <= d < SECTION && d % 4 >= 2 && d / 0x4_0000 % 2 == 0
  {
    LowBits(a) + Bit(!a.global, 0x2_0000) + Bit(!a.secure, 0x8_0000)
  }

  function LowBits(a: Attr): (d: int)
    requires AttrOk(a)
    ensures 0 <= d < 0x2_0000 && d % 4 >= 2
  {
    2 + Bit(a.pxn && !a.px, 1)
    + 4 * (Bit(a.smp, 0x4000) + Bit(!a.px && !a.ux, 4) + Bit(UserReads(a), 0x200) + Bit(!Writes(a), 0x2000)
           + Bit(Reads(a), 0x100) + a.texcb / 4 * 0x400 + a.texcb / 2 % 2 * 2 + a.texcb % 2)
  }

  /** mattr_to_desc at level 1 for a pointer to a table. */
  function TableBits(a: Attr): (d: int)
    ensures 0 <= d < TABLE_SIZE && d % 4 == 1
  {
    1 + Bit(!a.secure, 8)
  }

  /** mattr_to_desc at level 2. */
  function PageBits(a: Attr): (d: int)
    requires AttrOk(a)
    ensures 0 < d < PAGE && d % 4 >= 2
  {
    2 + Bit(!a.px && !a.ux, 1)
    + 4 * (Bit(a.smp, 0x100) + Bit(UserReads(a), 8) + Bit(!Writes(a), 0x80) + Bit(Reads(a), 4) + Bit(!a.global, 0x200)
           + a.texcb / 4 * 0x10 + a.texcb / 2 % 2 * 2 + a.texcb % 2)
  }

  // ---------------------------------------------------------------- what the hardware reads

  /** What a descriptor grants. Privileged code may read whatever has been accessed, and the user may write where both
      users may read and the page is writable. */
  datatype Access = Access(secure: bool, accessed: bool, writable: bool, userReadable: bool, executable: bool,
                           privExecutable: bool, global: bool, shared: bool, memory: int)

  predicate IsSet(d: int, weight: int)
    requires 0 < weight
  {
    d / weight % 2 == 1
  }

  /** The memory type's index: TEX[0], C and B. */
  function Index(d: int, tex: int): int
    requires 0 < tex
  {
    4 * (d / tex % 2) + 2 * (d / 0x8 % 2) + d / 0x4 % 2
  }

  /** The low bits of a section descriptor: NS, nG, S, AP[2], TEX[0], AP[1], AP[0], XN, C, B and PXN. */
  function SectionAccess(d: int): Access {
    Access(!IsSet(d, 0x8_0000), IsSet(d, 0x400), !IsSet(d, 0x8000), IsSet(d, 0x800), !IsSet(d, 0x10),
           !IsSet(d, 0x10) && !IsSet(d, 0x1), !IsSet(d, 0x2_0000), IsSet(d, 0x1_0000), Index(d, 0x1000))
  }

  /** The low bits of a page descriptor, nG, S, AP[2], TEX[0], AP[1], AP[0], C, B and XN, with NS and PXN from those of
      the pointer to its table. */
  function PageAccess(table: int, d: int): Access {
    Access(!IsSet(table, 0x8), IsSet(d, 0x10), !IsSet(d, 0x200), IsSet(d, 0x20), !IsSet(d, 0x1),
           !IsSet(d, 0x1) && !IsSet(table, 0x4), !IsSet(d, 0x800), IsSet(d, 0x400), Index(d, 0x40))
  }

  /** What the attributes of a region ask for: writing and executing imply reading, and what the user may do the core
      may do too. Pages have no bit against execution by the core alone. */
  function Granted(a: Attr, paged: bool): Access {
    Access(a.secure, a.pr || a.pw || a.px || a.ur || a.uw || a.ux, a.pw || a.uw, a.ur || a.uw || a.ux, a.px || a.ux,
           if paged || !a.pxn then a.px || a.ux else a.px, a.global, a.smp, a.texcb)
  }

  /** The two, as facts that are looked into only by name. */
  ghost predicate SectionGives(d: int, x: Access) {
    forall key: Key :: Opens(key) && key == OfAccess ==> SectionAccess(d) == x
  }

  ghost predicate PageGives(table: int, d: int, x: Access) {
    forall key: Key :: Opens(key) && key == OfAccess ==> PageAccess(table, d) == x
  }

  predicate IsBit(b: int) { 0 <= b <= 1 }

  /** One bit of a number that is written as a sum of its bits. */
  lemma BitOf(d: int, w: int, low: int, bit: int, high: int)
    requires 0 < w && IsBit(bit) && 0 <= low < w && d == low + w * bit + 2 * w * high
    ensures d / w % 2 == bit
  {
    assert d == (2 * high + bit) * w + low;
    DivUnique(d, w, 2 * high + bit, low);
  }

  lemma SectionFlags(pxn: int, b: int, c: int, xn: int, af: int, user: int, tex: int, ro: int, share: int, ng: int,
                      ns: int, d: int)
    requires IsBit(pxn) && IsBit(b) && IsBit(c) && IsBit(xn) && IsBit(af) && IsBit(user)
    requires IsBit(tex) && IsBit(ro) && IsBit(share) && IsBit(ng) && IsBit(ns)
    requires d == pxn + 0x2 + 0x4 * b + 0x8 * c + 0x10 * xn + 0x400 * af
      + 0x800 * user + 0x1000 * tex + 0x8000 * ro + 0x1_0000 * share + 0x2_0000 * ng + 0x8_0000 * ns
    ensures d % 2 == pxn && d / 0x4 % 2 == b && d / 0x8 % 2 == c && d / 0x10 % 2 == xn
    ensures d / 0x400 % 2 == af && d / 0x800 % 2 == user && d / 0x1000 % 2 == tex && d / 0x8000 % 2 == ro
    ensures d / 0x1_0000 % 2 == share && d / 0x2_0000 % 2 == ng && d / 0x8_0000 % 2 == ns
  {
    BitOf(d, 0x1, 0, pxn, 0x1 + 0x2 * b + 0x4 * c + 0x8 * xn + 0x200 * af + 0x400 * user + 0x800 * tex
      + 0x4000 * ro + 0x8000 * share + 0x1_0000 * ng + 0x4_0000 * ns);
    BitOf(d, 0x4, pxn + 0x2, b, c + 0x2 * xn + 0x80 * af + 0x100 * user + 0x200 * tex + 0x1000 * ro
      + 0x2000 * share + 0x4000 * ng + 0x1_0000 * ns);
    BitOf(d, 0x8, pxn + 0x2 + 0x4 * b, c, xn + 0x40 * af + 0x80 * user + 0x100 * tex + 0x800 * ro
      + 0x1000 * share + 0x2000 * ng + 0x8000 * ns);
    BitOf(d, 0x10, pxn + 0x2 + 0x4 * b + 0x8 * c, xn, 0x20 * af + 0x40 * user + 0x80 * tex + 0x400 * ro
      + 0x800 * share + 0x1000 * ng + 0x4000 * ns);
    BitOf(d, 0x400, pxn + 0x2 + 0x4 * b + 0x8 * c + 0x10 * xn, af, user + 0x2 * tex + 0x10 * ro + 0x20 * share
      + 0x40 * ng + 0x100 * ns);
    BitOf(d, 0x800, pxn + 0x2 + 0x4 * b + 0x8 * c + 0x10 * xn + 0x400 * af, user, tex + 0x8 * ro + 0x10 * share
      + 0x20 * ng + 0x80 * ns);
    BitOf(d, 0x1000, pxn + 0x2 + 0x4 * b + 0x8 * c + 0x10 * xn + 0x400 * af + 0x800 * user, tex, 0x4 * ro
      + 0x8 * share + 0x10 * ng + 0x40 * ns);
    BitOf(d, 0x8000, pxn + 0x2 + 0x4 * b + 0x8 * c + 0x10 * xn + 0x400 * af + 0x800 * user
      + 0x1000 * tex, ro, share + 0x2 * ng + 0x8 * ns);
    BitOf(d, 0x1_0000, pxn + 0x2 + 0x4 * b + 0x8 * c + 0x10 * xn + 0x400 * af + 0x800 * user + 0x1000 * tex
      + 0x8000 * ro, share, ng + 0x4 * ns);
    BitOf(d, 0x2_0000, pxn + 0x2 + 0x4 * b + 0x8 * c + 0x10 * xn + 0x400 * af + 0x800 * user + 0x1000 * tex
      + 0x8000 * ro + 0x1_0000 * share, ng, 0x2 * ns);
    BitOf(d, 0x8_0000, pxn + 0x2 + 0x4 * b + 0x8 * c + 0x10 * xn + 0x400 * af + 0x800 * user + 0x1000 * tex
      + 0x8000 * ro + 0x1_0000 * share + 0x2_0000 * ng, ns, 0);
  }

  lemma PageFlags(xn: int, b: int, c: int, af: int, user: int, tex: int, ro: int, share: int, ng: int, d: int)
    requires IsBit(xn) && IsBit(b) && IsBit(c) && IsBit(af) && IsBit(user) && IsBit(tex)
    requires IsBit(ro) && IsBit(share) && IsBit(ng)
    requires d == xn + 0x2 + 0x4 * b + 0x8 * c + 0x10 * af
      + 0x20 * user + 0x40 * tex + 0x200 * ro + 0x400 * share + 0x800 * ng
    ensures d % 2 == xn && d / 0x4 % 2 == b && d / 0x8 % 2 == c && d / 0x10 % 2 == af
    ensures d / 0x20 % 2 == user && d / 0x40 % 2 == tex && d / 0x200 % 2 == ro && d / 0x400 % 2 == share
    ensures d / 0x800 % 2 == ng
  {
    BitOf(d, 0x1, 0, xn, 0x1 + 0x2 * b + 0x4 * c + 0x8 * af + 0x10 * user + 0x20 * tex + 0x100 * ro
      + 0x200 * share + 0x400 * ng);
    BitOf(d, 0x4, xn + 0x2, b, c + 0x2 * af + 0x4 * user + 0x8 * tex + 0x40 * ro + 0x80 * share + 0x100 * ng);
    BitOf(d, 0x8, xn + 0x2 + 0x4 * b, c, af + 0x2 * user + 0x4 * tex + 0x20 * ro + 0x40 * share + 0x80 * ng);
    BitOf(d, 0x10, xn + 0x2 + 0x4 * b + 0x8 * c, af, user + 0x2 * tex + 0x10 * ro + 0x20 * share + 0x40 * ng);
    BitOf(d, 0x20, xn + 0x2 + 0x4 * b + 0x8 * c + 0x10 * af, user, tex + 0x8 * ro + 0x10 * share + 0x20 * ng);
    BitOf(d, 0x40, xn + 0x2 + 0x4 * b + 0x8 * c + 0x10 * af + 0x20 * user, tex, 0x4 * ro + 0x8 * share + 0x10 * ng);
    BitOf(d, 0x200, xn + 0x2 + 0x4 * b + 0x8 * c + 0x10 * af + 0x20 * user + 0x40 * tex, ro, share + 0x2 * ng);
    BitOf(d, 0x400, xn + 0x2 + 0x4 * b + 0x8 * c + 0x10 * af + 0x20 * user + 0x40 * tex + 0x200 * ro, share, ng);
    BitOf(d, 0x800, xn + 0x2 + 0x4 * b + 0x8 * c + 0x10 * af + 0x20 * user + 0x40 * tex + 0x200 * ro
      + 0x400 * share, ng, 0);
  }

  /** What is read off the flags. */
  lemma SectionReads(pxn: int, b: int, c: int, xn: int, af: int, user: int, tex: int, ro: int, share: int, ng: int,
                     ns: int, d: int, x: Access)
    requires IsBit(pxn) && IsBit(b) && IsBit(c) && IsBit(xn) && IsBit(af) && IsBit(user)
    requires IsBit(tex) && IsBit(ro) && IsBit(share) && IsBit(ng) && IsBit(ns)
    requires d == pxn + 0x2 + 0x4 * b + 0x8 * c + 0x10 * xn + 0x400 * af
      + 0x800 * user + 0x1000 * tex + 0x8000 * ro + 0x1_0000 * share + 0x2_0000 * ng + 0x8_0000 * ns
    requires x == Access(ns == 0, af == 1, ro == 0, user == 1, xn == 0, xn == 0 && pxn == 0, ng == 0, share == 1,
      4 * tex + 2 * c + b)
    ensures SectionGives(d, x)
  {
    SectionFlags(pxn, b, c, xn, af, user, tex, ro, share, ng, ns, d);
  }

  lemma PageReads(xn: int, b: int, c: int, af: int, user: int, tex: int, ro: int, share: int, ng: int, d: int,
                  table: int, x: Access)
    requires IsBit(xn) && IsBit(b) && IsBit(c) && IsBit(af) && IsBit(user) && IsBit(tex)
    requires IsBit(ro) && IsBit(share) && IsBit(ng)
    requires d == xn + 0x2 + 0x4 * b + 0x8 * c + 0x10 * af
      + 0x20 * user + 0x40 * tex + 0x200 * ro + 0x400 * share + 0x800 * ng
    requires table == 1 || table == 9
    requires x == Access(table == 1, af == 1, ro == 0, user == 1, xn == 0, xn == 0, ng == 0, share == 1,
      4 * tex + 2 * c + b)
    ensures PageGives(table, d, x)
  {
    PageFlags(xn, b, c, af, user, tex, ro, share, ng, d);
  }

  /** The bits of the index of a memory type. */
  lemma IndexBits(texcb: int)
    requires 0 <= texcb < 8
    ensures IsBit(texcb / 4) && IsBit(texcb / 2 % 2) && IsBit(texcb % 2)
    ensures 4 * (texcb / 4) + 2 * (texcb / 2 % 2) + texcb % 2 == texcb
  {
  }

  /** A flag as a bit. */
  lemma Flag(on: bool) returns (b: int)
    ensures IsFlag(b, on)
  {
    b := if on then 1 else 0;
  }

  predicate IsFlag(b: int, on: bool) { b == if on then 1 else 0 }

  lemma Weighted(b: int, on: bool, weight: int)
    requires IsFlag(b, on)
    ensures Bit(on, weight) == weight * b
  {
  }

  /** The flags of a region's attributes. */
  ghost predicate AreFlags(a: Attr, xn: int, af: int, user: int, ro: int, share: int, ng: int, ns: int) {
    && IsBit(xn) && IsBit(af) && IsBit(user) && IsBit(ro) && IsBit(share) && IsBit(ng) && IsBit(ns)
    && forall key: Key :: Opens(key) && key == OfAccess ==> FlagsAre(a, xn, af, user, ro, share, ng, ns)
  }

  ghost predicate FlagsAre(a: Attr, xn: int, af: int, user: int, ro: int, share: int, ng: int, ns: int) {
    && IsFlag(xn, !a.px && !a.ux) && IsFlag(af, Reads(a)) && IsFlag(user, UserReads(a)) && IsFlag(ro, !Writes(a))
    && IsFlag(share, a.smp) && IsFlag(ng, !a.global) && IsFlag(ns, !a.secure)
  }

  lemma SectionSum(a: Attr, pxn: int, b: int, c: int, xn: int, af: int, user: int, tex: int, ro: int, share: int,
                   ng: int, ns: int)
    requires AttrOk(a) && tex == a.texcb / 4 && c == a.texcb / 2 % 2 && b == a.texcb % 2
    requires AreFlags(a, xn, af, user, ro, share, ng, ns) && IsFlag(pxn, a.pxn && !a.px)
    ensures SectionBits(a) == pxn + 0x2 + 0x4 * b + 0x8 * c + 0x10 * xn + 0x400 * af
      + 0x800 * user + 0x1000 * tex + 0x8000 * ro + 0x1_0000 * share + 0x2_0000 * ng + 0x8_0000 * ns
  {
    assert Opens(OfAccess);
    Weighted(pxn, a.pxn && !a.px, 1);
    Weighted(share, a.smp, 0x4000);
    Weighted(xn, !a.px && !a.ux, 4);
    Weighted(user, UserReads(a), 0x200);
    Weighted(ro, !Writes(a), 0x2000);
    Weighted(af, Reads(a), 0x100);
    Weighted(ng, !a.global, 0x2_0000);
    Weighted(ns, !a.secure, 0x8_0000);
  }

  lemma PageSum(a: Attr, xn: int, b: int, c: int, af: int, user: int, tex: int, ro: int, share: int, ng: int, ns: int)
    requires AttrOk(a) && tex == a.texcb / 4 && c == a.texcb / 2 % 2 && b == a.texcb % 2
    requires AreFlags(a, xn, af, user, ro, share, ng, ns)
    ensures PageBits(a) == xn + 0x2 + 0x4 * b + 0x8 * c + 0x10 * af
      + 0x20 * user + 0x40 * tex + 0x200 * ro + 0x400 * share + 0x800 * ng
  {
    assert Opens(OfAccess);
    Weighted(xn, !a.px && !a.ux, 1);
    Weighted(share, a.smp, 0x100);
    Weighted(user, UserReads(a), 8);
    Weighted(ro, !Writes(a), 0x80);
    Weighted(af, Reads(a), 4);
    Weighted(ng, !a.global, 0x200);
  }

  lemma GrantedFlags(a: Attr, paged: bool, pxn: int, xn: int, af: int, user: int, ro: int, share: int, ng: int, ns: int)
    requires AreFlags(a, xn, af, user, ro, share, ng, ns) && (pxn == 1 <==> !paged && a.pxn && !a.px) && IsBit(pxn)
    ensures Access(ns == 0, af == 1, ro == 0, user == 1, xn == 0, xn == 0 && pxn == 0, ng == 0, share == 1, a.texcb)
            == Granted(a, paged)
  {
    assert Opens(OfAccess);
  }

  /** A section grants what is asked for. */
  lemma SectionGrants(a: Attr)
    requires AttrOk(a)
    ensures SectionGives(SectionBits(a), Granted(a, false))
  {
    var b, c, tex := a.texcb % 2, a.texcb / 2 % 2, a.texcb / 4;
    var xn, af, user, ro, share, ng, ns := FlagsOf(a);
    var pxn := Flag(a.pxn && !a.px);
    IndexBits(a.texcb);
    SectionSum(a, pxn, b, c, xn, af, user, tex, ro, share, ng, ns);
    SectionOf(a, pxn, b, c, xn, af, user, tex, ro, share, ng, ns, SectionBits(a));
  }

  lemma SectionOf(a: Attr, pxn: int, b: int, c: int, xn: int, af: int, user: int, tex: int, ro: int, share: int,
                  ng: int, ns: int, d: int)
    requires AreFlags(a, xn, af, user, ro, share, ng, ns) && IsBit(pxn) && (pxn == 1 <==> a.pxn && !a.px)
    requires IsBit(b) && IsBit(c) && IsBit(tex) && a.texcb == 4 * tex + 2 * c + b
    requires d == pxn + 0x2 + 0x4 * b + 0x8 * c + 0x10 * xn + 0x400 * af
      + 0x800 * user + 0x1000 * tex + 0x8000 * ro + 0x1_0000 * share + 0x2_0000 * ng + 0x8_0000 * ns
    ensures SectionGives(d, Granted(a, false))
  {
    GrantedFlags(a, false, pxn, xn, af, user, ro, share, ng, ns);
    SectionReads(pxn, b, c, xn, af, user, tex, ro, share, ng, ns, d, Granted(a, false));
  }

  lemma FlagsOf(a: Attr) returns (xn: int, af: int, user: int, ro: int, share: int, ng: int, ns: int)
    ensures AreFlags(a, xn, af, user, ro, share, ng, ns)
  {
    xn := Flag(!a.px && !a.ux);
    af := Flag(Reads(a));
    user := Flag(UserReads(a));
    ro := Flag(!Writes(a));
    share := Flag(a.smp);
    ng := Flag(!a.global);
    ns := Flag(!a.secure);
  }

  /** A page behind a pointer grants what is asked for. */
  lemma PageGrants(a: Attr)
    requires AttrOk(a)
    ensures PageGives(TableBits(a), PageBits(a), Granted(a, true))
  {
    var b, c, tex := a.texcb % 2, a.texcb / 2 % 2, a.texcb / 4;
    var xn, af, user, ro, share, ng, ns := FlagsOf(a);
    IndexBits(a.texcb);
    PageSum(a, xn, b, c, af, user, tex, ro, share, ng, ns);
    PageOf(a, xn, b, c, af, user, tex, ro, share, ng, ns, PageBits(a));
  }

  lemma PageOf(a: Attr, xn: int, b: int, c: int, af: int, user: int, tex: int, ro: int, share: int, ng: int, ns: int,
               d: int)
    requires AreFlags(a, xn, af, user, ro, share, ng, ns)
    requires IsBit(b) && IsBit(c) && IsBit(tex) && a.texcb == 4 * tex + 2 * c + b
    requires d == xn + 0x2 + 0x4 * b + 0x8 * c + 0x10 * af
      + 0x20 * user + 0x40 * tex + 0x200 * ro + 0x400 * share + 0x800 * ng
    ensures PageGives(TableBits(a), d, Granted(a, true))
  {
    GrantedFlags(a, true, 0, xn, af, user, ro, share, ng, ns);
    PageReads(xn, b, c, af, user, tex, ro, share, ng, d, TableBits(a), Granted(a, true));
  }

  /** The hardware's reading of a section and of a page is what the attributes ask for. */
  lemma GrantedIsRead(a: Attr)
    requires AttrOk(a)
    ensures SectionAccess(SectionBits(a)) == Granted(a, false)
    ensures PageAccess(TableBits(a), PageBits(a)) == Granted(a, true)
  {
    SectionGrants(a);
    PageGrants(a);
    assert Opens(OfAccess);
  }

  /** The user may write exactly what the attributes say, unless it may read what only the core is to write. */
  lemma UserWrites(a: Attr, paged: bool)
    ensures var g := Granted(a, paged);
      (g.userReadable && g.writable <==> a.uw) <==> !((a.ur || a.ux) && a.pw && !a.uw)
  {
  }

  /** The core may execute exactly what the attributes say, unless only the user is to execute and nothing says so. */
  lemma CoreExecutes(a: Attr, paged: bool)
    ensures (Granted(a, paged).privExecutable <==> a.px) <==> !(a.ux && !a.px && (paged || !a.pxn))
  {
  }
}
