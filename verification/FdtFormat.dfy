/**
 The flattened device tree's structure block (chapter 5.4 of the Devicetree Specification): a
 sequence of tokens, each a big-endian tag word with its payload padded to a multiple of four bytes.
 TagAt reads one token the way fdt_next_tag does.
 */
module FdtFormat {
  import opened Seal
  import opened Seqs

  type byte = x: int | 0 <= x < 256

  const BEGIN_NODE := 1
  const END_NODE := 2
  const PROP := 3
  const NOP := 4
  const END := 9

  const ERR_NOTFOUND := -1
  const ERR_EXISTS := -2
  const ERR_NOSPACE := -3
  const ERR_BADOFFSET := -4
  const ERR_TRUNCATED := -8
  const ERR_BADSTRUCTURE := -11

  const WORDS := 0x1_0000_0000

  /** From this length word on, the size of a property's token wraps 32 bits. */
  const LENGTHS := 0xFFFF_FFF4

  function Align4(x: int): int { (x + 3) / 4 * 4 }

  lemma AlignShift(off: int, n: int)
    requires Aligned(off)
    ensures Align4(off + n) == off + Align4(n)
  {
  }

  /** A 32-bit word, most significant byte first. */
  function Word(w: int): (s: seq<byte>)
    requires 0 <= w < WORDS
    ensures |s| == 4
  {
    [w / 0x100_0000, w / 0x1_0000 % 256, w / 0x100 % 256, w % 256]
  }

  function WordAt(s: seq<byte>, i: int): (w: int)
    requires 0 <= i <= |s| - 4
    ensures 0 <= w < WORDS
  {
    (s[i] as int) * 0x100_0000 + (s[i + 1] as int) * 0x1_0000 + (s[i + 2] as int) * 0x100 + (s[i + 3] as int)
  }

  /** The bytes x stand in s at an offset. */
  ghost predicate Holds(s: seq<byte>, off: int, x: seq<byte>) {
    HoldsBytes(s, off, x) == true
  }

  ghost predicate HoldsBytes(s: seq<byte>, off: int, x: seq<byte>) {
    0 <= off <= off + |x| <= |s| && forall key: Key :: Opens(key) && key == OfBytes ==> s[off..off + |x|] == x
  }

  lemma HeldIs(s: seq<byte>, off: int, x: seq<byte>)
    requires Holds(s, off, x)
    ensures 0 <= off <= off + |x| <= |s| && s[off..off + |x|] == x
  {
    assert Opens(OfBytes);
  }

  lemma IsHeld(s: seq<byte>, off: int, x: seq<byte>)
    requires 0 <= off <= off + |x| <= |s| && s[off..off + |x|] == x
    ensures Holds(s, off, x)
  {
  }

  lemma HoldsParts(s: seq<byte>, off: int, x: seq<byte>, y: seq<byte>)
    ensures Holds(s, off, x + y) <==> Holds(s, off, x) && Holds(s, off + |x|, y)
  {
    assert Opens(OfBytes);
    var n, m := off + |x|, off + |x| + |y|;
    if 0 <= off && m <= |s| {
      assert s[off..m] == s[off..n] + s[n..m];
      assert (x + y)[..|x|] == x && (x + y)[|x|..] == y;
      assert s[off..m][..|x|] == s[off..n] && s[off..m][|x|..] == s[n..m];
    }
  }

  lemma HoldsAt(s: seq<byte>, off: int, x: seq<byte>, i: int)
    requires Holds(s, off, x) && 0 <= i < |x|
    ensures s[off + i] == x[i]
  {
    assert Opens(OfBytes);
    assert s[off..off + |x|][i] == s[off + i];
  }

  lemma WordHeld(s: seq<byte>, off: int, w: int)
    requires 0 <= w < WORDS && Holds(s, off, Word(w))
    ensures WordAt(s, off) == w
  {
    HoldsAt(s, off, Word(w), 0);
    HoldsAt(s, off, Word(w), 1);
    HoldsAt(s, off, Word(w), 2);
    HoldsAt(s, off, Word(w), 3);
    WordDigits(w);
  }

  lemma WordDigits(w: int)
    requires 0 <= w < WORDS
    ensures w / 0x100_0000 * 0x100_0000 + w / 0x1_0000 % 256 * 0x1_0000 + w / 0x100 % 256 * 0x100 + w % 256 == w
  {
    var a := w / 256;
    var b := a / 256;
    assert w / 0x1_0000 == b && w / 0x100_0000 == b / 256;
  }

  /** The number that bytes make up, most significant first. */
  function BigEndian(s: seq<byte>): int { if s == [] then 0 else BigEndian(s[..|s| - 1]) * 256 + (s[|s| - 1] as int) }

  lemma BigEndianLast(s: seq<byte>, x: byte)
    ensures BigEndian(s + [x]) == BigEndian(s) * 256 + (x as int)
  {
    assert (s + [x])[..|s|] == s;
  }

  lemma BigEndianWord(s: seq<byte>)
    requires |s| == 4
    ensures BigEndian(s) == WordAt(s, 0)
  {
    assert [] + [s[0]] + [s[1]] + [s[2]] + [s[3]] == s;
    BigEndianLast([], s[0]);
    BigEndianLast([] + [s[0]], s[1]);
    BigEndianLast([] + [s[0]] + [s[1]], s[2]);
    BigEndianLast([] + [s[0]] + [s[1]] + [s[2]], s[3]);
  }

  /** Words are big-endian, as they are written and as they are read. */
  lemma WordsAreBigEndian(w: int, s: seq<byte>, i: int)
    requires 0 <= w < WORDS && 0 <= i <= |s| - 4
    ensures BigEndian(Word(w)) == w && WordAt(s, i) == BigEndian(s[i..i + 4])
  {
    BigEndianWord(Word(w));
    WordDigits(w);
    BigEndianWord(s[i..i + 4]);
  }

  // ---------------------------------------------------------------- tokens

  /** Padding bytes carry no meaning, and editing leaves whatever was there. */
  datatype Token =
    | Begin(name: seq<byte>, pad: seq<byte>)
    | Prop(nameoff: int, value: seq<byte>, pad: seq<byte>)
    | EndNode
    | Nop
    | End

  predicate NoNul(s: seq<byte>) { forall i :: 0 <= i < |s| ==> s[i] != 0 }

  predicate TokenOk(t: Token) {
    WellFormed(t) == true
  }

  predicate WellFormed(t: Token) {
    match t
    case Begin(name, pad) => NoNul(name) && |name| + 1 + |pad| == Align4(|name| + 1)
    case Prop(nameoff, value, pad) =>
      0 <= nameoff < WORDS && |value| < LENGTHS && |value| + |pad| == Align4(|value|)
    case _ => true
  }

  predicate AllOk(ts: seq<Token>) { forall i :: 0 <= i < |ts| ==> TokenOk(ts[i]) }

  function TagOf(t: Token): int {
    match t
    case Begin(_, _) => BEGIN_NODE
    case Prop(_, _, _) => PROP
    case EndNode => END_NODE
    case Nop => NOP
    case End => END
  }

  function Encode(t: Token): seq<byte>
    requires TokenOk(t)
  {
    match t
    case Begin(name, pad) => Word(BEGIN_NODE) + (name + [0] + pad)
    case Prop(nameoff, value, pad) => Word(PROP) + (Word(|value|) + Word(nameoff) + (value + pad))
    case EndNode => Word(END_NODE)
    case Nop => Word(NOP)
    case End => Word(END)
  }

  /** The bytes of a token: its tag is 1, 2, 3, 4 or 9, a name ends in a NUL, a property has its length and the offset
      of its name in front, and padding fills up four bytes. */
  lemma TokenBytes(t: Token)
    requires TokenOk(t)
    ensures match t {
      case Begin(name, pad) => Encode(t) == [0, 0, 0, 1] + (name + [0] + pad) && 0 !in name && |pad| < 4
      case Prop(nameoff, value, pad) =>
        && |Encode(t)| >= 12 && Encode(t)[..4] == [0, 0, 0, 3] && BigEndian(Encode(t)[4..8]) == |value|
        && BigEndian(Encode(t)[8..12]) == nameoff && Encode(t)[12..] == value + pad && |pad| < 4
      case EndNode => Encode(t) == [0, 0, 0, 2]
      case Nop => Encode(t) == [0, 0, 0, 4]
      case End => Encode(t) == [0, 0, 0, 9]
    }
    ensures |Encode(t)| % 4 == 0
  {
    EncodeAligned(t);
    if t.Prop? { PropertyBytes(Word(PROP), Word(|t.value|), Word(t.nameoff), t.value + t.pad, |t.value|, t.nameoff); }
  }

  lemma PropertyBytes(a: seq<byte>, b: seq<byte>, c: seq<byte>, d: seq<byte>, len: int, nameoff: int)
    requires |a| == 4 && 0 <= len < WORDS && 0 <= nameoff < WORDS && b == Word(len) && c == Word(nameoff)
    ensures var e := a + (b + c + d);
      e[..4] == a && BigEndian(e[4..8]) == len && BigEndian(e[8..12]) == nameoff && e[12..] == d
  {
    var e := a + (b + c + d);
    assert e[..4] == a && e[4..8] == b && e[8..12] == c && e[12..] == d;
    WordsAreBigEndian(len, b, 0);
    WordsAreBigEndian(nameoff, c, 0);
  }

  function EncodeAll(ts: seq<Token>): seq<byte>
    requires AllOk(ts)
  {
    if ts == [] then [] else Encode(ts[0]) + EncodeAll(ts[1..])
  }

  predicate Aligned(n: int) { n % 4 == 0 }

  lemma AlignedSum(a: int, b: int, c: int)
    requires Aligned(a) && Aligned(b) && c == a + b
    ensures Aligned(c)
  {
  }

  lemma EncodeAligned(t: Token)
    requires TokenOk(t)
    ensures Aligned(|Encode(t)|) && |Encode(t)| >= 4
  {
  }

  lemma AlignedAlign(x: int)
    ensures Aligned(Align4(x)) && x <= Align4(x) < x + 4
  {
  }

  lemma {:induction false} EncodeAllAligned(ts: seq<Token>)
    requires AllOk(ts)
    ensures Aligned(|EncodeAll(ts)|)
  {
    if ts != [] {
      EncodeAligned(ts[0]);
      EncodeAllAligned(ts[1..]);
      AlignedSum(|Encode(ts[0])|, |EncodeAll(ts[1..])|, |EncodeAll(ts)|);
    }
  }

  lemma {:induction false} EncodeConcat(a: seq<Token>, b: seq<Token>)
    requires AllOk(a) && AllOk(b)
    ensures AllOk(a + b) && EncodeAll(a + b) == EncodeAll(a) + EncodeAll(b)
  {
    if a == [] {
      assert a + b == b;
    } else {
      assert (a + b)[1..] == a[1..] + b;
      EncodeConcat(a[1..], b);
      var x, y, z := Encode(a[0]), EncodeAll(a[1..]), EncodeAll(b);
      assert x + (y + z) == (x + y) + z;
    }
  }

  lemma EncodeOne(t: Token)
    requires TokenOk(t)
    ensures EncodeAll([t]) == Encode(t)
  {
    assert [t][1..] == [];
  }

  lemma EncodeLast(a: seq<Token>, t: Token)
    requires AllOk(a) && TokenOk(t)
    ensures AllOk(a + [t]) && EncodeAll(a + [t]) == EncodeAll(a) + Encode(t)
  {
    EncodeOne(t);
    EncodeConcat(a, [t]);
  }

  lemma EncodeMiddle(a: seq<Token>, t: Token, c: seq<Token>)
    requires AllOk(a) && TokenOk(t) && AllOk(c)
    ensures AllOk(a + [t] + c) && EncodeAll(a + [t] + c) == EncodeAll(a) + Encode(t) + EncodeAll(c)
  {
    EncodeLast(a, t);
    EncodeConcat(a + [t], c);
  }

  // ---------------------------------------------------------------- reading one token

  /** One past the first NUL from off on, or -1. */
  function NameEnd(s: seq<byte>, off: int): (end: int)
    requires 0 <= off
    ensures end == -1 || off < end <= |s|
    decreases |s| - off
  {
    if off >= |s| then -1 else if s[off] == 0 then off + 1 else NameEnd(s, off + 1)
  }

  lemma {:induction false} NameEndAt(s: seq<byte>, off: int, end: int)
    requires 0 <= off <= end < |s| && s[end] == 0
    requires forall i :: off <= i < end ==> s[i] != 0
    ensures NameEnd(s, off) == end + 1
    decreases end - off
  {
    if off < end { NameEndAt(s, off + 1, end); }
  }

  datatype Step = Step(tag: int, next: int)

  /** What fdt_next_tag gives: the tag at an offset and the offset after the token, or END and an error. The size of a
      property is a 32-bit sum. */
  function TagAt(s: seq<byte>, off: int): (r: Step)
    ensures r.tag != END ==> r.next >= off >= 0
    ensures r.tag != END ==> (r.next == off <==> Stalls(s, off))
    ensures r.tag != END && r.tag != PROP ==> r.next > off
    ensures r.tag in {BEGIN_NODE, END_NODE, PROP, NOP, END}
  {
    if off < 0 || off + 4 > |s| then Step(END, ERR_TRUNCATED)
    else
      var tag := WordAt(s, off);
      if tag == BEGIN_NODE then
        var end := NameEnd(s, off + 4);
        if end < 0 then Step(END, ERR_BADSTRUCTURE) else Step(BEGIN_NODE, Align4(end))
      else if tag == PROP then
        if off + 8 > |s| || off + PropSize(WordAt(s, off + 4)) > |s| then Step(END, ERR_BADSTRUCTURE)
        else Step(PROP, Align4(off + PropSize(WordAt(s, off + 4))))
      else if tag == END || tag == END_NODE || tag == NOP then Step(tag, Align4(off + 4))
      else Step(END, ERR_BADSTRUCTURE)
  }

  /** The first four bytes decide what stands at an offset; where they are missing the block is truncated (-8), and any
      others, and a name without an end, make a bad structure (-11). */
  lemma TagByBytes(s: seq<byte>, off: int)
    requires 0 <= off
    ensures off + 4 > |s| ==> TagAt(s, off) == Step(9, -8)
    ensures off + 4 <= |s| ==>
      var tag, r := s[off..off + 4], TagAt(s, off);
      && (tag == [0, 0, 0, 1] ==> if exists i :: off + 4 <= i < |s| && s[i] == 0 then r.tag == 1 else r == Step(9, -11))
      && (tag == [0, 0, 0, 2] ==> r.tag == 2) && (tag == [0, 0, 0, 4] ==> r.tag == 4)
      && (tag == [0, 0, 0, 9] ==> r.tag == 9 && r.next >= 0)
      && (tag == [0, 0, 0, 3] ==> r.tag == 3 || r == Step(9, -11))
      && (tag !in {[0, 0, 0, 1], [0, 0, 0, 2], [0, 0, 0, 3], [0, 0, 0, 4], [0, 0, 0, 9]} ==> r == Step(9, -11))
  {
    if off + 4 <= |s| {
      NameEndExists(s, off + 4);
      WordOfBytes(s, off, s[off..off + 4]);
    }
  }

  lemma WordOfBytes(s: seq<byte>, off: int, tag: seq<byte>)
    requires 0 <= off && off + 4 <= |s| && tag == s[off..off + 4]
    ensures WordAt(s, off) == 1 <==> tag == [0, 0, 0, 1]
    ensures WordAt(s, off) == 2 <==> tag == [0, 0, 0, 2]
    ensures WordAt(s, off) == 3 <==> tag == [0, 0, 0, 3]
    ensures WordAt(s, off) == 4 <==> tag == [0, 0, 0, 4]
    ensures WordAt(s, off) == 9 <==> tag == [0, 0, 0, 9]
  {
    var a, b, c, d := tag[0], tag[1], tag[2], tag[3];
    assert tag == [a, b, c, d];
    assert a == s[off] && b == s[off + 1] && c == s[off + 2] && d == s[off + 3];
  }

  lemma {:induction false} NameEndExists(s: seq<byte>, off: int)
    requires 0 <= off
    ensures NameEnd(s, off) != -1 <==> exists i :: off <= i < |s| && s[i] == 0
    decreases |s| - off
  {
    if off < |s| && s[off] != 0 { NameEndExists(s, off + 1); }
  }

  /** The size of a property's token without padding, from its length word: twelve more, in 32 bits. */
  function PropSize(len: int): int { if len < LENGTHS then 12 + len else len - LENGTHS }

  lemma PropSizeIs(len: int)
    requires 0 <= len < WORDS
    ensures PropSize(len) == (12 + len) % WORDS
  {
  }

  /** A property whose size wraps to zero: fdt_next_tag makes no progress here. */
  predicate Stalls(s: seq<byte>, off: int) {
    0 <= off <= |s| - 8 && off % 4 == 0 && WordAt(s, off) == PROP && WordAt(s, off + 4) == LENGTHS
  }

  /** Reading an encoded token gives it back, wherever it stands. */
  lemma TagAtToken(s: seq<byte>, off: int, t: Token)
    requires Aligned(off) && TokenOk(t) && Holds(s, off, Encode(t))
    ensures TagAt(s, off) == Step(TagOf(t), off + |Encode(t)|)
  {
    match t
    case Begin(name, pad) => TagAtBegin(s, off, name, pad);
    case Prop(nameoff, value, pad) => TagAtProp(s, off, nameoff, value, pad);
    case EndNode => WordHeld(s, off, END_NODE);
    case Nop => WordHeld(s, off, NOP);
    case End => WordHeld(s, off, END);
  }

  lemma TagAtBegin(s: seq<byte>, off: int, name: seq<byte>, pad: seq<byte>)
    requires Aligned(off) && TokenOk(Begin(name, pad)) && Holds(s, off, Encode(Begin(name, pad)))
    ensures TagAt(s, off) == Step(BEGIN_NODE, off + 4 + |name| + 1 + |pad|)
    ensures Holds(s, off + 4, name) && s[off + 4 + |name|] == 0
  {
    HoldsParts(s, off, Word(BEGIN_NODE), name + [0] + pad);
    WordHeld(s, off, BEGIN_NODE);
    NameHeld(s, off + 4, name, pad);
    AlignShift(off + 4, |name| + 1);
  }

  /** A name with its NUL ends at the NUL. */
  lemma NameHeld(s: seq<byte>, off: int, name: seq<byte>, pad: seq<byte>)
    requires 0 <= off && NoNul(name) && Holds(s, off, name + [0] + pad)
    ensures Holds(s, off, name) && off + |name| < |s| && s[off + |name|] == 0 && NameEnd(s, off) == off + |name| + 1
  {
    HoldsParts(s, off, name + [0], pad);
    HoldsParts(s, off, name, [0]);
    var end := off + |name|;
    HoldsAt(s, end, [0], 0);
    forall i | off <= i < end ensures s[i] != 0 { HoldsAt(s, off, name, i - off); }
    NameEndAt(s, off, end);
  }

  lemma TagAtProp(s: seq<byte>, off: int, nameoff: int, value: seq<byte>, pad: seq<byte>)
    requires Aligned(off) && TokenOk(Prop(nameoff, value, pad)) && Holds(s, off, Encode(Prop(nameoff, value, pad)))
    ensures TagAt(s, off) == Step(PROP, off + 12 + |value| + |pad|)
    ensures off + 12 + |value| <= |s| && WordAt(s, off + 4) == |value| && WordAt(s, off + 8) == nameoff
    ensures Holds(s, off, Word(PROP)) && Holds(s, off + 8, Word(nameoff)) && Holds(s, off + 12, value)
    ensures off + 12 + |value| + |pad| <= |s| && |value| + |pad| == Align4(|value|)
  {
    HoldsParts(s, off, Word(PROP), Word(|value|) + Word(nameoff) + (value + pad));
    WordHeld(s, off, PROP);
    HoldsParts(s, off + 4, Word(|value|) + Word(nameoff), value + pad);
    HoldsParts(s, off + 4, Word(|value|), Word(nameoff));
    WordHeld(s, off + 4, |value|);
    WordHeld(s, off + 8, nameoff);
    HoldsParts(s, off + 12, value, pad);
    AlignShift(off + 12, |value|);
  }

  // ---------------------------------------------------------------- positions in a token list

  /** The offset of token i. */
  function Off(ts: seq<Token>, i: nat): nat
    requires AllOk(ts) && i <= |ts|
  {
    if i == 0 then 0 else Off(ts, i - 1) + |Encode(ts[i - 1])|
  }

  lemma {:induction false} OffIsLength(ts: seq<Token>, i: nat)
    requires AllOk(ts) && i <= |ts|
    ensures Off(ts, i) == |EncodeAll(ts[..i])|
  {
    if i > 0 {
      OffIsLength(ts, i - 1);
      CutAround(ts, i - 1);
      EncodeLast(ts[..i - 1], ts[i - 1]);
    }
  }

  lemma OffIsSize(ts: seq<Token>)
    requires AllOk(ts)
    ensures Off(ts, |ts|) == |EncodeAll(ts)|
  {
    OffIsLength(ts, |ts|);
    assert ts[..|ts|] == ts;
  }

  lemma {:induction false} OffAligned(ts: seq<Token>, i: nat)
    requires AllOk(ts) && i <= |ts|
    ensures Aligned(Off(ts, i))
  {
    if i > 0 {
      OffAligned(ts, i - 1);
      EncodeAligned(ts[i - 1]);
      AlignedSum(Off(ts, i - 1), |Encode(ts[i - 1])|, Off(ts, i));
    }
  }

  /** Token i of a block stands at its offset. */
  lemma TokenHeld(s: seq<byte>, off: int, ts: seq<Token>, i: nat, at: int)
    requires AllOk(ts) && i < |ts| && Holds(s, off, EncodeAll(ts)) && at == off + Off(ts, i)
    ensures Holds(s, at, Encode(ts[i]))
  {
    OffIsLength(ts, i);
    CutAround(ts, i);
    MiddleHeld(s, off, ts[..i], ts[i], ts[i + 1..], at);
  }

  lemma MiddleHeld(s: seq<byte>, off: int, a: seq<Token>, t: Token, c: seq<Token>, at: int)
    requires AllOk(a) && TokenOk(t) && AllOk(c) && AllOk(a + [t] + c) && Holds(s, off, EncodeAll(a + [t] + c))
    requires at == off + |EncodeAll(a)|
    ensures Holds(s, at, Encode(t))
  {
    EncodeMiddle(a, t, c);
    var x, y, z := EncodeAll(a), Encode(t), EncodeAll(c);
    HoldsParts(s, off, x + y, z);
    HoldsParts(s, off, x, y);
  }

  /** fdt_next_tag */
  method NextTag(s: seq<byte>, start: int) returns (tag: int, next: int)
    ensures Step(tag, next) == TagAt(s, start)
  {
    next := ERR_TRUNCATED;
    if start < 0 || start + 4 > |s| { return END, next; }
    tag := WordAt(s, start);
    var off := start + 4;
    next := ERR_BADSTRUCTURE;
    if tag == BEGIN_NODE {
      while off < |s| && s[off] != 0
        invariant start + 4 <= off && NameEnd(s, off) == NameEnd(s, start + 4)
        decreases |s| - off
      {
        off := off + 1;
      }
      if off >= |s| { return END, next; }
      off := off + 1;
    } else if tag == PROP {
      if off + 4 > |s| { return END, next; }
      off := start + PropSize(WordAt(s, off));
    } else if tag != END && tag != END_NODE && tag != NOP {
      return END, next;
    }
    if off > |s| { return END, next; }
    next := Align4(off);
  }
}
