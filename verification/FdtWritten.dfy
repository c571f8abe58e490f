/**
 The bytes of properties and nodes as the editor writes them, piece by piece.
 */
module FdtWritten {
  import opened Arith
  import opened Seal
  import opened Seqs
  import opened FdtFormat
  import opened FdtBytes
  import opened FdtTree
  import opened FdtView
  import opened FdtEdits
  import opened FdtChange

  // ---------------------------------------------------------------- properties

  /** A property's place was resized and its length word set. */
  ghost predicate IsResized(s: seq<byte>, r: int, item: Item, len: int, t: seq<byte>) {
    ResizedTo(s, r, item, len, t) == true
  }

  ghost predicate ResizedTo(s: seq<byte>, r: int, item: Item, len: int, t: seq<byte>) {
    && 0 <= r && 0 <= len < LENGTHS && item.PropItem? && r + 12 + Align4(len) <= |t|
    && forall key: Key :: Opens(key) && key == OfProp ==>
      && Around(s, r, r + 12 + |item.value| + |item.pad|, t, r + 12 + Align4(len))
        && HeaderHeld(t, r, len, item.nameoff)
      && Holds(t, r + 12, item.value[..Min(|item.value|, len)])
  }

  /** The three words before a property's value. */
  ghost predicate HeaderHeld(t: seq<byte>, r: int, len: int, nameoff: int) {
    HeaderWords(t, r, len, nameoff) == true
  }

  ghost predicate HeaderWords(t: seq<byte>, r: int, len: int, nameoff: int) {
    && 0 <= len < LENGTHS && 0 <= nameoff < WORDS
    && Holds(t, r, Word(PROP)) && Holds(t, r + 4, Word(len)) && Holds(t, r + 8, Word(nameoff))
  }

  lemma HeaderKept(t: seq<byte>, r: int, len: int, nameoff: int, at: int, x: seq<byte>, u: seq<byte>)
    requires HeaderHeld(t, r, len, nameoff) && IsPatched(t, at, x, u) && at >= r + 12
    ensures HeaderHeld(u, r, len, nameoff)
  {
    PatchedHolds(t, at, x, u, r, Word(PROP));
    PatchedHolds(t, at, x, u, r + 4, Word(len));
    PatchedHolds(t, at, x, u, r + 8, Word(nameoff));
  }

  lemma HeaderWritten(s: seq<byte>, q: int, nameoff: int, len: int, c: int, t: seq<byte>, t1: seq<byte>, t2: seq<byte>,
                      u: seq<byte>)
    requires 0 <= len < LENGTHS && 0 <= nameoff < WORDS && 0 <= q && q + 12 <= c && Around(s, q, q, t, c)
    requires IsPatched(t, q, Word(PROP), t1) && IsPatched(t1, q + 8, Word(nameoff), t2)
    requires IsPatched(t2, q + 4, Word(len), u)
    ensures Around(s, q, q, u, c) && HeaderHeld(u, q, len, nameoff)
  {
    PatchedAround(s, q, q, t, c, q, Word(PROP), t1);
    PatchedAround(s, q, q, t1, c, q + 8, Word(nameoff), t2);
    PatchedHolds(t1, q + 8, Word(nameoff), t2, q, Word(PROP));
    PatchedAround(s, q, q, t2, c, q + 4, Word(len), u);
    PatchedHolds(t2, q + 4, Word(len), u, q, Word(PROP));
    PatchedHolds(t2, q + 4, Word(len), u, q + 8, Word(nameoff));
  }

  /** After the splice, setting the length word completes the resizing. */
  /** u is t with a word written at a place. */
  ghost predicate WordPut(t: seq<byte>, q: int, w: int, u: seq<byte>) { IsWordPut(t, q, w, u) == true }

  ghost predicate IsWordPut(t: seq<byte>, q: int, w: int, u: seq<byte>) {
    0 <= w < WORDS && IsPatched(t, q, Word(w), u)
  }

  lemma Resized(s: seq<byte>, r: int, item: Item, len: int, a: int, b: int, t: seq<byte>, u: seq<byte>)
    requires PropHere(s, r, item) && 0 <= len < LENGTHS && a == Align4(|item.value|) && b == Align4(len)
    requires Spliced(s, r + 12, a, b, t) && WordPut(t, r + 4, len, u)
    ensures IsResized(s, r, item, len, u)
  {
    PropParts(s, r, item);
    SplicedLength(s, r + 12, a, b, t);
    ValueKept(s, r, item.value, len, a, b, t, u);
    AroundResized(s, r, len, a, b, t, u, r + 12 + |item.value| + |item.pad|, r + 12 + Align4(len));
    HeaderResized(s, r, item.nameoff, len, a, b, t, u);
  }

  lemma PropParts(s: seq<byte>, r: int, item: Item)
    requires PropHere(s, r, item)
    ensures Holds(s, r, Word(PROP)) && 0 <= item.nameoff < WORDS && Holds(s, r + 8, Word(item.nameoff))
    ensures Holds(s, r + 12, item.value)
    ensures |item.value| + |item.pad| == Align4(|item.value|)
  {
    OpenProp(s, r, item);
    TagAtProp(s, r, item.nameoff, item.value, item.pad);
  }

  lemma ValueKept(s: seq<byte>, r: int, value: seq<byte>, len: int, a: int, b: int, t: seq<byte>, u: seq<byte>)
    requires 0 <= len < LENGTHS && Holds(s, r + 12, value) && |value| <= a && len <= b
    requires Spliced(s, r + 12, a, b, t) && IsPatched(t, r + 4, Word(len), u)
    ensures Holds(u, r + 12, value[..Min(|value|, len)])
  {
    var x := value[..Min(|value|, len)];
    HoldsPrefix(s, r + 12, value, Min(|value|, len));
    SplicedHolds(s, r + 12, a, b, t, r + 12, x);
    PatchedHolds(t, r + 4, Word(len), u, r + 12, x);
  }

  lemma AroundResized(s: seq<byte>, r: int, len: int, a: int, b: int, t: seq<byte>, u: seq<byte>, end: int, c: int)
    requires 0 <= r && 0 <= len < LENGTHS && Spliced(s, r + 12, a, b, t) && IsPatched(t, r + 4, Word(len), u)
    requires end == r + 12 + a && c == r + 12 + b && 0 <= b
    ensures Around(s, r, end, u, c) && Holds(u, r + 4, Word(len))
  {
    SplicedAround(s, r, r + 12, a, b, t, end, c);
    PatchedAround(s, r, end, t, c, r + 4, Word(len), u);
  }

  lemma HeaderResized(s: seq<byte>, r: int, nameoff: int, len: int, a: int, b: int, t: seq<byte>, u: seq<byte>)
    requires 0 <= len < LENGTHS && 0 <= nameoff < WORDS && 0 <= a && 0 <= b
    requires Holds(s, r, Word(PROP)) && Holds(s, r + 8, Word(nameoff)) && Holds(u, r + 4, Word(len))
    requires Spliced(s, r + 12, a, b, t) && IsPatched(t, r + 4, Word(len), u)
    ensures HeaderHeld(u, r, len, nameoff)
  {
    SplicedHolds(s, r + 12, a, b, t, r, Word(PROP));
    SplicedHolds(s, r + 12, a, b, t, r + 8, Word(nameoff));
    PatchedHolds(t, r + 4, Word(len), u, r, Word(PROP));
    PatchedHolds(t, r + 4, Word(len), u, r + 8, Word(nameoff));
  }

  /** Writing the value completes the bytes of a property. */
  lemma ValueWritten(s: seq<byte>, a: int, b: int, t: seq<byte>, c: int, nameoff: int, value: seq<byte>, u: seq<byte>)
    returns (pad: seq<byte>)
    requires c == a + 12 + Align4(|value|) && 0 <= a && Around(s, a, b, t, c) && HeaderHeld(t, a, |value|, nameoff)
    requires IsPatched(t, a + 12, value, u)
    ensures PropWritten(s, a, b, u, nameoff, value, pad)
  {
    PatchedAround(s, a, b, t, c, a + 12, value, u);
    HeaderKept(t, a, |value|, nameoff, a + 12, value, u);
    pad := u[a + 12 + |value|..c];
    IsHeld(u, a + 12 + |value|, pad);
  }

  lemma Rewritten(s: seq<byte>, r: int, item: Item, value: seq<byte>, t: seq<byte>, u: seq<byte>)
    returns (pad: seq<byte>)
    requires IsResized(s, r, item, |value|, t) && IsPatched(t, r + 12, value, u)
    ensures PropWritten(s, r, r + 12 + |item.value| + |item.pad|, u, item.nameoff, value, pad)
  {
    assert Opens(OfProp);
    pad := ValueWritten(s, r, r + 12 + |item.value| + |item.pad|, t, r + 12 + Align4(|value|), item.nameoff, value, u);
  }

  lemma Extended(s: seq<byte>, r: int, item: Item, more: seq<byte>, len: int, t: seq<byte>, at: int, u: seq<byte>)
    returns (pad: seq<byte>)
    requires item.PropItem? && len == |item.value| + |more| && IsResized(s, r, item, len, t)
    requires at == r + 12 + |item.value| && IsPatched(t, at, more, u)
    ensures PropWritten(s, r, r + 12 + |item.value| + |item.pad|, u, item.nameoff, item.value + more, pad)
  {
    assert Opens(OfProp);
    assert item.value[..Min(|item.value|, len)] == item.value;
    var c := r + 12 + Align4(len);
    PatchedAround(s, r, r + 12 + |item.value| + |item.pad|, t, c, at, more, u);
    HeaderKept(t, r, len, item.nameoff, at, more, u);
    PatchedHolds(t, at, more, u, r + 12, item.value);
    HoldsParts(u, r + 12, item.value, more);
    pad := u[at + |more|..c];
    IsHeld(u, at + |more|, pad);
  }

  // ---------------------------------------------------------------- nodes

  function Zeros(n: nat): (s: seq<byte>)
    ensures |s| == n
  {
    seq(n, i => 0)
  }

  lemma ZeroTail(t: seq<byte>, q: int, n: int, k: int, at: int)
    requires 0 <= k < n && Holds(t, q, Zeros(n)) && at == q + k
    ensures Holds(t, at, [0] + Zeros(n - k - 1))
  {
    assert Zeros(n) == Zeros(k) + ([0] + Zeros(n - k - 1));
    HoldsParts(t, q, Zeros(k), [0] + Zeros(n - k - 1));
  }

  lemma BeginHeld(u: seq<byte>, q: int, name: seq<byte>, z: seq<byte>)
    requires TokenOk(Begin(name, z)) && Holds(u, q, Word(BEGIN_NODE)) && Holds(u, q + 4, name)
    requires Holds(u, q + 4 + |name|, [0] + z)
    ensures Holds(u, q, Encode(Begin(name, z)))
  {
    HoldsParts(u, q + 4, name, [0] + z);
    assert name + ([0] + z) == name + [0] + z;
    HoldsParts(u, q, Word(BEGIN_NODE), name + [0] + z);
  }

  /** The tag, the zeros and the name of a new node. */
  lemma HeadWritten(s: seq<byte>, q: int, n: int, name: seq<byte>, c: int, t: seq<byte>, t1: seq<byte>, t2: seq<byte>,
                    t3: seq<byte>)
    requires NoNul(name) && 0 <= q && n == Align4(|name| + 1) && c == q + 4 + n + 4 && Around(s, q, q, t, c)
    requires IsPatched(t, q, Word(BEGIN_NODE), t1) && IsPatched(t1, q + 4, Zeros(n), t2)
    requires IsPatched(t2, q + 4, name, t3)
    ensures TokenOk(Begin(name, Zeros(n - |name| - 1)))
    ensures Around(s, q, q, t3, c) && Holds(t3, q, Encode(Begin(name, Zeros(n - |name| - 1))))
  {
    var z := Zeros(n - |name| - 1);
    PatchedAround(s, q, q, t, c, q, Word(BEGIN_NODE), t1);
    PatchedAround(s, q, q, t1, c, q + 4, Zeros(n), t2);
    PatchedHolds(t1, q + 4, Zeros(n), t2, q, Word(BEGIN_NODE));
    PatchedAround(s, q, q, t2, c, q + 4, name, t3);
    PatchedHolds(t2, q + 4, name, t3, q, Word(BEGIN_NODE));
    ZeroTail(t2, q + 4, n, |name|, q + 4 + |name|);
    PatchedHolds(t2, q + 4, name, t3, q + 4 + |name|, [0] + z);
    BeginHeld(t3, q, name, z);
  }

  /** The end tag completes the bytes of an empty node. */
  lemma NodeWritten(s: seq<byte>, q: int, n: int, name: seq<byte>, c: int, at: int, t: seq<byte>, u: seq<byte>)
    requires 0 <= q && n == Align4(|name| + 1) && at == q + 4 + n && c == at + 4
    requires TokenOk(Begin(name, Zeros(n - |name| - 1)))
    requires Around(s, q, q, t, c) && Holds(t, q, Encode(Begin(name, Zeros(n - |name| - 1))))
    requires IsPatched(t, at, Word(END_NODE), u)
    ensures var m := Node(name, Zeros(n - |name| - 1), []);
      AllOk(Flatten(m)) && Exchanged(s, q, q, EncodeAll(Flatten(m)), u)
  {
    var z := Zeros(n - |name| - 1);
    var m := Node(name, z, []);
    PatchedAround(s, q, q, t, c, at, Word(END_NODE), u);
    PatchedHolds(t, at, Word(END_NODE), u, q, Encode(Begin(name, z)));
    HoldsParts(u, q, Encode(Begin(name, z)), Word(END_NODE));
    EmptyNodeBytes(m);
    AroundExchanged(s, q, q, u, c, EncodeAll(Flatten(m)));
  }

  lemma EmptyNodeBytes(m: Node)
    requires m.items == [] && TokenOk(Begin(m.name, m.pad))
    ensures AllOk(Flatten(m)) && EncodeAll(Flatten(m)) == Encode(Begin(m.name, m.pad)) + Word(END_NODE)
  {
    EmptyNodeOk(m, []);
    assert Flatten(m) == [Begin(m.name, m.pad)] + [EndNode];
    EncodeConcat([Begin(m.name, m.pad)], [EndNode]);
    EncodeOne(Begin(m.name, m.pad));
    EncodeOne(EndNode);
  }

  /** A name written in the place of another. */
  lemma NameWritten(s: seq<byte>, off: int, a: int, b: int, name: seq<byte>, t: seq<byte>, u: seq<byte>, end: int)
    returns (pad: seq<byte>)
    requires 0 <= off && 0 <= a && b == Align4(|name| + 1) && NoNul(name) && Holds(s, off, Word(BEGIN_NODE))
    requires end == off + 4 + a
    requires Spliced(s, off + 4, a, b, t) && IsPatched(t, off + 4, name + [0], u)
    ensures TokenOk(Begin(name, pad)) && Exchanged(s, off, end, Encode(Begin(name, pad)), u)
  {
    var c := off + 4 + b;
    NameBytes(s, off, a, b, name, t, u, end, c);
    pad := u[off + 4 + |name| + 1..c];
    IsHeld(u, off + 4 + |name| + 1, pad);
    HoldsParts(u, off + 4, name, [0]);
    HoldsParts(u, off + 4 + |name|, [0], pad);
    BeginHeld(u, off, name, pad);
    AroundExchanged(s, off, end, u, c, Encode(Begin(name, pad)));
  }

  lemma NameBytes(s: seq<byte>, off: int, a: int, b: int, name: seq<byte>, t: seq<byte>, u: seq<byte>, end: int, c: int)
    requires 0 <= off && 0 <= a && |name| + 1 <= b && end == off + 4 + a && c == off + 4 + b
    requires Holds(s, off, Word(BEGIN_NODE))
    requires Spliced(s, off + 4, a, b, t) && IsPatched(t, off + 4, name + [0], u)
    ensures c <= |u| && Around(s, off, end, u, c) && Holds(u, off, Word(BEGIN_NODE)) && Holds(u, off + 4, name + [0])
  {
    SplicedLength(s, off + 4, a, b, t);
    SplicedAround(s, off, off + 4, a, b, t, end, c);
    SplicedHolds(s, off + 4, a, b, t, off, Word(BEGIN_NODE));
    PatchedAround(s, off, end, t, c, off + 4, name + [0], u);
    PatchedHolds(t, off + 4, name + [0], u, off, Word(BEGIN_NODE));
  }

  // ---------------------------------------------------------------- no-ops

  function Nops(n: nat): (ts: seq<Token>)
    ensures AllOk(ts)
  {
    seq(n, i => Nop)
  }

  function NopItems(n: nat): (items: seq<Item>)
    ensures AllNops(items)
  {
    seq(n, i => NopItem)
  }

  lemma NopItemsFlatten(n: nat)
    ensures AllOk(FlattenItems(NopItems(n))) && FlattenItems(NopItems(n)) == Nops(n)
  {
    NopsMean(NopItems(n), []);
  }

  lemma NopsStart(s: seq<byte>, q: int)
    requires 0 <= q <= |s|
    ensures Exchanged(s, q, q, EncodeAll(Nops(0)), s)
  {
    assert Nops(0) == [];
  }

  lemma NopsLength(n: nat)
    ensures Nops(n + 1) == Nops(n) + [Nop] && EncodeAll(Nops(n + 1)) == EncodeAll(Nops(n)) + Word(NOP)
  {
    assert Nops(n + 1) == Nops(n) + [Nop];
    EncodeConcat(Nops(n), [Nop]);
    EncodeOne(Nop);
  }

  lemma {:induction false} NopsSize(n: nat)
    ensures |EncodeAll(Nops(n))| == 4 * n
  {
    if n == 0 {
      assert Nops(0) == [];
    } else {
      NopsSize(n - 1);
      NopsLength(n - 1);
    }
  }

  lemma NopsStep(s: seq<byte>, q: int, n: nat, at: int, next: int, t: seq<byte>, u: seq<byte>)
    requires at == q + 4 * n && next == at + 4 && Exchanged(s, q, at, EncodeAll(Nops(n)), t) && next <= |s|
    requires IsPatched(t, at, Word(NOP), u)
    ensures Exchanged(s, q, next, EncodeAll(Nops(n + 1)), u)
  {
    assert Opens(OfBytes);
    NopsSize(n);
    NopsLength(n);
    var x := EncodeAll(Nops(n));
    assert t[..at] == s[..q] + x;
    assert t[next..] == s[next..];
    assert u == s[..q] + x + Word(NOP) + s[next..];
  }
}
