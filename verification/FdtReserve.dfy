/**
 The memory reservation block (section 5.3 of the Devicetree Specification): pairs of 64-bit words,
 an address and a size, up to the first pair whose size is zero.
 */
module FdtReserve {
  import opened Seqs
  import opened FdtFormat

  const HEADER_SIZE := 40     // sizeof(struct fdt_header)
  const ENTRY := 16
  const DOUBLES := 0x1_0000_0000_0000_0000

  datatype Entry = Entry(address: int, size: int)

  predicate EntryOk(e: Entry) { 0 <= e.address < DOUBLES && 0 <= e.size < DOUBLES }

  predicate EntriesOk(es: seq<Entry>) { forall i :: 0 <= i < |es| ==> EntryOk(es[i]) }

  predicate Within(m: seq<byte>, at: int, n: int) { 0 <= at && 0 <= n && at + n <= |m| }

  /** A 64-bit word, most significant byte first. */
  function Word64(x: int): (s: seq<byte>)
    requires 0 <= x < DOUBLES
    ensures |s| == 8
  {
    Word(x / WORDS) + Word(x % WORDS)
  }

  function EntryBytes(e: Entry): (s: seq<byte>)
    requires EntryOk(e)
    ensures |s| == ENTRY
  {
    Word64(e.address) + Word64(e.size)
  }

  function MapBytes(es: seq<Entry>): (s: seq<byte>)
    requires EntriesOk(es)
    ensures |s| == ENTRY * |es|
  {
    if es == [] then [] else MapBytes(es[..|es| - 1]) + EntryBytes(es[|es| - 1])
  }

  lemma MapBytesLast(es: seq<Entry>, e: Entry)
    requires EntriesOk(es) && EntryOk(e)
    ensures EntriesOk(es + [e]) && MapBytes(es + [e]) == MapBytes(es) + EntryBytes(e)
  {
    assert (es + [e])[..|es|] == es;
  }

  /** Entry i of a map stands at its place. */
  lemma {:induction false} EntryHeld(m: seq<byte>, at: int, es: seq<Entry>, i: nat)
    requires EntriesOk(es) && Holds(m, at, MapBytes(es)) && i < |es|
    ensures Holds(m, at + ENTRY * i, EntryBytes(es[i]))
  {
    var n := |es| - 1;
    HoldsParts(m, at, MapBytes(es[..n]), EntryBytes(es[n]));
    if i < n {
      assert es[..n][i] == es[i];
      EntryHeld(m, at, es[..n], i);
    }
  }

  function Word64At(m: seq<byte>, at: int): int
    requires Within(m, at, 8)
  {
    WordAt(m, at) * WORDS + WordAt(m, at + 4)
  }

  lemma Word64Held(m: seq<byte>, at: int, x: int)
    requires 0 <= x < DOUBLES && Holds(m, at, Word64(x))
    ensures Within(m, at, 8) && Word64At(m, at) == x
  {
    HoldsParts(m, at, Word(x / WORDS), Word(x % WORDS));
    WordHeld(m, at, x / WORDS);
    WordHeld(m, at + 4, x % WORDS);
  }

  /** What fdt_get_mem_rsv reads. */
  function ReadEntry(m: seq<byte>, at: int, n: int): Entry
    requires 0 <= n && Within(m, at + ENTRY * n, ENTRY)
  {
    Entry(Word64At(m, at + ENTRY * n), Word64At(m, at + ENTRY * n + 8))
  }

  /** A map is written at an offset. */
  ghost predicate HoldsMap(m: seq<byte>, at: int, es: seq<Entry>) { MapIsHeld(m, at, es) == true }

  ghost predicate MapIsHeld(m: seq<byte>, at: int, es: seq<Entry>) { EntriesOk(es) && Holds(m, at, MapBytes(es)) }

  /** Reading a written map gives its entries. */
  lemma EntryRead(m: seq<byte>, at: int, es: seq<Entry>, i: nat)
    requires HoldsMap(m, at, es) && i < |es|
    ensures Within(m, at + ENTRY * i, ENTRY) && ReadEntry(m, at, i) == es[i]
  {
    EntryStands(m, at, es, i, at + ENTRY * i, es[i]);
    EntryReads(m, at, i, es[i]);
  }

  lemma EntryReads(m: seq<byte>, at: int, i: nat, e: Entry)
    requires Standing(m, at + ENTRY * i, e)
    ensures Within(m, at + ENTRY * i, ENTRY) && ReadEntry(m, at, i) == e
  {
    EntryReadAt(m, at + ENTRY * i, e);
  }

  /** The entry's bytes stand in m at x. */
  ghost predicate Standing(m: seq<byte>, x: int, e: Entry) { IsStanding(m, x, e) == true }

  ghost predicate IsStanding(m: seq<byte>, x: int, e: Entry) { EntryOk(e) && Holds(m, x, EntryBytes(e)) }

  lemma EntryStands(m: seq<byte>, at: int, es: seq<Entry>, i: nat, x: int, e: Entry)
    requires HoldsMap(m, at, es) && i < |es| && x == at + ENTRY * i && e == es[i]
    ensures Standing(m, x, e)
  {
    EntryHeld(m, at, es, i);
  }

  lemma EntryReadAt(m: seq<byte>, x: int, e: Entry)
    requires Standing(m, x, e)
    ensures Within(m, x, ENTRY) && Word64At(m, x) == e.address && Word64At(m, x + 8) == e.size
  {
    HoldsParts(m, x, Word64(e.address), Word64(e.size));
    Word64Held(m, x, e.address);
    Word64Held(m, x + 8, e.size);
  }

  lemma BigEndianAppend(a: seq<byte>, b: seq<byte>)
    requires |b| == 4
    ensures BigEndian(a + b) == BigEndian(a) * WORDS + BigEndian(b)
  {
    assert a + [b[0]] + [b[1]] + [b[2]] + [b[3]] == a + b;
    BigEndianLast(a, b[0]);
    BigEndianLast(a + [b[0]], b[1]);
    BigEndianLast(a + [b[0]] + [b[1]], b[2]);
    BigEndianLast(a + [b[0]] + [b[1]] + [b[2]], b[3]);
    BigEndianWord(b);
  }

  /** Entry i of a map is sixteen bytes: the address and the size, each eight bytes, most significant first. */
  lemma MapIsBigEndian(es: seq<Entry>, i: nat)
    requires EntriesOk(es) && i < |es|
    ensures 16 * i + 16 <= |MapBytes(es)|
    ensures BigEndian(MapBytes(es)[16 * i..16 * i + 8]) == es[i].address
    ensures BigEndian(MapBytes(es)[16 * i + 8..16 * i + 16]) == es[i].size
  {
    var m, x := MapBytes(es), 16 * i;
    assert m[0..0 + |m|] == m;
    IsHeld(m, 0, m);
    EntryStands(m, 0, es, i, x, es[i]);
    EntryIsBigEndian(m, x, es[i]);
  }

  lemma EntryIsBigEndian(m: seq<byte>, x: int, e: Entry)
    requires Standing(m, x, e)
    ensures 0 <= x && x + 16 <= |m|
    ensures BigEndian(m[x..x + 8]) == e.address && BigEndian(m[x + 8..x + 16]) == e.size
  {
    HoldsParts(m, x, Word64(e.address), Word64(e.size));
    HeldIs(m, x, Word64(e.address));
    HeldIs(m, x + 8, Word64(e.size));
    Word64IsBigEndian(e.address);
    Word64IsBigEndian(e.size);
  }

  lemma Word64IsBigEndian(x: int)
    requires 0 <= x < DOUBLES
    ensures BigEndian(Word64(x)) == x
  {
    var a, b := Word(x / WORDS), Word(x % WORDS);
    WordsAreBigEndian(x / WORDS, a, 0);
    WordsAreBigEndian(x % WORDS, b, 0);
    BigEndianAppend(a, b);
  }

  // ---------------------------------------------------------------- where the map ends

  /** The size of entry i is not zero; the entry with size zero ends the map. */
  predicate EntryAt(m: seq<byte>, at: int, i: int) {
    Within(m, at + ENTRY * i, ENTRY) && (WordAt(m, at + ENTRY * i + 8) != 0 || WordAt(m, at + ENTRY * i + 12) != 0)
  }

  ghost predicate ReserveMap(m: seq<byte>, at: int, count: nat) {
    0 <= at && Within(m, at + ENTRY * count, ENTRY) && !EntryAt(m, at, count)
      && forall i :: 0 <= i < count ==> EntryAt(m, at, i)
  }

  /** fdt_num_mem_rsv */
  method NumReserve(m: seq<byte>, at: int, ghost count: nat) returns (i: int)
    requires ReserveMap(m, at, count)
    ensures i == count
  {
    i := 0;
    while WordAt(m, at + ENTRY * i + 8) != 0 || WordAt(m, at + ENTRY * i + 12) != 0
      invariant 0 <= i <= count && Within(m, at + ENTRY * i, ENTRY)
      decreases count - i
    {
      assert EntryAt(m, at, i);
      i := i + 1;
      assert i < count ==> EntryAt(m, at, i);
    }
    assert i < count ==> EntryAt(m, at, i);
  }

  /** The first entry of size zero, or the number of entries. */
  function FirstEmpty(es: seq<Entry>): (n: nat)
    ensures n <= |es| && (n < |es| ==> es[n].size == 0) && forall i :: 0 <= i < n ==> es[i].size != 0
  {
    if es == [] || es[0].size == 0 then 0 else 1 + FirstEmpty(es[1..])
  }

  lemma EntryIsEmpty(m: seq<byte>, at: int, es: seq<Entry>, i: nat)
    requires 0 <= at && EntriesOk(es) && Holds(m, at, MapBytes(es)) && i < |es|
    ensures Within(m, at + ENTRY * i, ENTRY) && (EntryAt(m, at, i) <==> es[i].size != 0)
  {
    EntryRead(m, at, es, i);
  }

  /** A written map with its last entry of size zero ends at the first such entry. */
  lemma MapEnds(m: seq<byte>, at: int, es: seq<Entry>)
    requires 0 <= at && EntriesOk(es) && Holds(m, at, MapBytes(es)) && FirstEmpty(es) < |es|
    ensures ReserveMap(m, at, FirstEmpty(es))
  {
    var n := FirstEmpty(es);
    EntryIsEmpty(m, at, es, n);
    forall i | 0 <= i < n ensures EntryAt(m, at, i) { EntryIsEmpty(m, at, es, i); }
  }

  lemma {:induction false} EndsAtLast(es: seq<Entry>, e: Entry)
    requires e.size == 0
    ensures FirstEmpty(es + [e]) == FirstEmpty(es) < |es + [e]|
  {
    if es != [] {
      assert (es + [e])[0] == es[0] && (es + [e])[1..] == es[1..] + [e];
      EndsAtLast(es[1..], e);
    }
  }
}
