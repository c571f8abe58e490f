/**
 The sequential writer of fdt_sw.c: the structure block grows upwards, the strings table downwards
 from the end of the buffer, and fdt_finish brings them together.
 */
module FdtWriter {
  import opened Arith
  import opened Seal
  import opened Seqs
  import opened FdtFormat
  import opened FdtBytes
  import opened FdtTree
  import opened FdtView
  import opened FdtRead
  import opened FdtSplice
  import opened FdtEdits
  import opened FdtLookup
  import opened FdtChange
  import opened FdtHolding
  import opened FdtWritten
  import opened FdtFix
  import opened FdtBlob
  import opened FdtReserve

  const HEADER := 48          // where the reserve map starts
  const ERR_BADSTATE := -7

  /** The structure block spells out the tokens, whose names are in the table. */
  ghost predicate Written(structure: seq<byte>, strings: seq<byte>, tokens: seq<Token>) {
    WrittenTokens(structure, strings, tokens) == true
  }

  ghost predicate WrittenTokens(structure: seq<byte>, strings: seq<byte>, tokens: seq<Token>) {
    AllOk(tokens) && structure == EncodeAll(tokens) && NamesFixable(strings, tokens)
  }

  lemma WrittenIs(structure: seq<byte>, strings: seq<byte>, tokens: seq<Token>)
    requires Written(structure, strings, tokens)
    ensures AllOk(tokens) && structure == EncodeAll(tokens) && NamesFixable(strings, tokens)
  {
  }

  lemma WriteToken(structure: seq<byte>, strings: seq<byte>, tokens: seq<Token>, t: Token, structure': seq<byte>)
    requires Written(structure, strings, tokens) && TokenOk(t) && FixableAt(strings, t)
    requires Exchanged(structure, |structure|, |structure|, Encode(t), structure')
    ensures Written(structure', strings, tokens + [t])
  {
    EncodeLast(tokens, t);
    NamesFixableConcat(strings, tokens, [t]);
    ExchangedAtEnd(structure, Encode(t), structure');
  }

  /** A call that needs at most so much room: with that much it succeeds, and it uses no more. */
  ghost predicate Costs(before: int, after: int, cost: int, err: int) {
    (err != 0 ==> before < cost) && (err == 0 ==> after >= before - cost)
  }

  /** A call that takes so much room, and fails exactly when there is less. */
  ghost predicate Takes(before: int, after: int, cost: int, err: int) {
    (err != 0 <==> before < cost) && after == if err == 0 then before - cost else before
  }

  /** The name offset of a written token, a distance from the table's end, stands for the name. */
  ghost predicate IsNamed(table: seq<byte>, nameoff: int, name: seq<byte>) {
    && 0 <= nameoff < WORDS
    && forall key: Key :: Opens(key) && key == OfProp ==> Fixable(table, nameoff) && RawName(table, nameoff) == name
  }

  lemma NamedIs(table: seq<byte>, nameoff: int, name: seq<byte>)
    requires IsNamed(table, nameoff, name)
    ensures Fixable(table, nameoff) && RawName(table, nameoff) == name
  {
    assert Opens(OfProp);
  }

  lemma WriteNamed(structure: seq<byte>, strings: seq<byte>, tokens: seq<Token>, t: Token, name: seq<byte>,
                   structure': seq<byte>)
    requires Written(structure, strings, tokens) && t.Prop? && TokenOk(t) && IsNamed(strings, t.nameoff, name)
    requires Exchanged(structure, |structure|, |structure|, Encode(t), structure')
    ensures Written(structure', strings, tokens + [t])
  {
    NamedIs(strings, t.nameoff, name);
    WriteToken(structure, strings, tokens, t, structure');
  }

  // ---------------------------------------------------------------- what the calls answer

  /** No answer of the source: the copy of a name has run over the start of the buffer, and over the header. */
  const OVERRUN := 1

  /** What decides the answers: the size of the buffer, the end of the structure block, and the strings table. */
  datatype Ledger = Ledger(size: int, top: int, table: seq<byte>)

  datatype Outcome = Fits(ledger: Ledger) | Full | Overrun

  function Answer(o: Outcome): int { if o.Fits? then 0 else if o.Full? then ERR_NOSPACE else OVERRUN }

  function Grab(l: Ledger, n: int): Outcome {
    if l.top + n + |l.table| > l.size then Full else Fits(l.(top := l.top + n))
  }

  ghost predicate InTable(table: seq<byte>, name: seq<byte>) { exists i :: 0 <= i && Holds(table, i, name + [0]) }

  /** The test for room in _fdt_find_add_string, an unsigned 32-bit sum. */
  predicate NoRoom(l: Ledger, len: int) { (l.size - |l.table| - len) % WORDS < l.top }

  /** A name is in the table, is put in front of it, or has no room; one that is longer than all the buffer in front of
      the table passes the test. */
  ghost function AddName(l: Ledger, name: seq<byte>): Outcome {
    if InTable(l.table, name) then Fits(l)
    else if NoRoom(l, |name| + 1) then Full
    else if |l.table| + |name| + 1 > l.size then Overrun
    else Fits(l.(table := name + [0] + l.table))
  }

  ghost function AddProp(l: Ledger, name: seq<byte>, value: seq<byte>): Outcome {
    var o := AddName(l, name);
    if o.Fits? then Grab(o.ledger, 12 + Align4(|value|)) else o
  }

  /** The first bytes of the name went in front of the buffer, and the others over all that was before the table. */
  ghost predicate RunOver(table: seq<byte>, name: seq<byte>, ahead: int, bytes: seq<byte>) {
    0 < ahead <= |name| + 1 && bytes == (name + [0])[ahead..] + table
  }

  ghost predicate LedgerOk(l: Ledger) { 0 <= l.top && l.top + |l.table| <= l.size < 0x8000_0000 }

  /** When a name runs over, for names whose length is a C int. */
  lemma OverrunIs(l: Ledger, name: seq<byte>)
    requires LedgerOk(l) && |name| < 0x8000_0000
    ensures AddName(l, name) == Overrun <==> !InTable(l.table, name) && |l.table| + |name| + 1 > l.size
  {
    var x := l.size - |l.table| - (|name| + 1);
    if x < 0 { DivUnique(x, WORDS, -1, x + WORDS); } else { DivUnique(x, WORDS, 0, x); }
  }

  /** A name that runs over has no room, and one that fits takes it. */
  lemma NameTakes(l: Ledger, name: seq<byte>)
    requires LedgerOk(l)
    ensures AddName(l, name) == Overrun ==> l.size - l.top - |l.table| < |name| + 1
    ensures !InTable(l.table, name) && |l.table| + |name| + 1 <= l.size ==>
      (NoRoom(l, |name| + 1) <==> l.size - l.top - |l.table| < |name| + 1)
  {
    var x := l.size - |l.table| - (|name| + 1);
    if x >= 0 { DivUnique(x, WORDS, 0, x); }
  }

  class Writer {
    var bytes: seq<byte>
    var offStruct: int
    var sizeStruct: int
    var sizeStrings: int
    ghost var head: seq<byte>
    ghost var structure: seq<byte>
    ghost var strings: seq<byte>
    ghost var tokens: seq<Token>
    ghost var reserve: seq<Entry>

    /** Before the reserve map is finished: no node or property has been written. */
    ghost predicate Mapping()
      reads this
    {
      IsMapping() == true
    }

    ghost predicate IsMapping()
      reads this
    {
      && HEADER_SIZE <= |bytes| < 0x8000_0000 && offStruct == HEADER + ENTRY * |reserve| && sizeStruct == 0
        && sizeStrings == 0
      && structure == [] && strings == [] && tokens == [] && EntriesOk(reserve)
      && (reserve != [] ==>
        offStruct <= |bytes| && head == bytes[..offStruct] && Holds(head, HEADER, MapBytes(reserve)))
    }

    ghost predicate Layout()
      reads this
    {
      BlocksStand() == true
    }

    ghost predicate BlocksStand()
      reads this
    {
      && HEAD <= offStruct && 0 <= sizeStruct && 0 <= sizeStrings
        && offStruct + sizeStruct + sizeStrings <= |bytes| < 0x8000_0000
      && head == bytes[..offStruct] && structure == bytes[offStruct..offStruct + sizeStruct]
      && strings == bytes[|bytes| - sizeStrings..]
    }

    /** The space between the structure block and the strings table. */
    ghost function Room(): int
      reads this
    {
      |bytes| - offStruct - sizeStruct - sizeStrings
    }

    function Table(): (s: seq<byte>)
      requires Layout()
      reads this
      ensures s == strings
    {
      bytes[|bytes| - sizeStrings..]
    }

    ghost predicate Valid()
      reads this
    {
      Layout() && Written(structure, strings, tokens)
    }

    /** fdt_create, on a buffer with room for the header. */
    constructor (size: int)
      requires HEADER_SIZE <= size < 0x8000_0000
      ensures Mapping() && reserve == [] && |bytes| == size
    {
      bytes := Zeros(size);
      offStruct, sizeStruct, sizeStrings := HEADER, 0, 0;
      structure, strings, tokens, reserve := [], [], [], [];
      head := [];
    }

    /** fdt_add_reservemap_entry */
    method AddReserve(e: Entry) returns (err: int)
      requires EntryOk(e) && (Mapping() || (Layout() && sizeStruct > 0))
      modifies this`bytes, this`offStruct, this`head, this`reserve
      ensures |bytes| == old(|bytes|)
      ensures sizeStruct > 0 ==>
        err == ERR_BADSTATE && bytes == old(bytes) && offStruct == old(offStruct) && head == old(head)
      ensures sizeStruct == 0 ==> Mapping() && err == if old(offStruct) + ENTRY > |bytes| then ERR_NOSPACE else 0
      ensures reserve == if err == 0 then old(reserve) + [e] else old(reserve)
      ensures offStruct == if err == 0 then old(offStruct) + ENTRY else old(offStruct)
    {
      if sizeStruct != 0 {
        err := ERR_BADSTATE;
      } else if offStruct + ENTRY > |bytes| {
        err := ERR_NOSPACE;
      } else {
        err := 0;
        AppendEntry(e);
      }
    }

    method AppendEntry(e: Entry)
      requires EntryOk(e) && Mapping() && offStruct + ENTRY <= |bytes|
      modifies this`bytes, this`offStruct, this`head, this`reserve
      ensures Mapping() && |bytes| == old(|bytes|) && reserve == old(reserve) + [e]
      ensures offStruct == old(offStruct) + ENTRY
    {
      var b := Patched(bytes, offStruct, Word64(e.address));
      b := Patched(b, offStruct + 8, Word64(e.size));
      var end := offStruct + ENTRY;
      EntryAppended(bytes, b, head, reserve, e, end);
      bytes, offStruct, reserve, head := b, end, reserve + [e], b[..end];
    }

    /** fdt_finish_reservemap: the empty entry ends the map, and nodes can be written. */
    method FinishReserve() returns (err: int)
      requires Mapping()
      modifies this`bytes, this`offStruct, this`head, this`reserve
      ensures |bytes| == old(|bytes|) && err == (if old(offStruct) + ENTRY > |bytes| then ERR_NOSPACE else 0)
      ensures err != 0 ==> Mapping() && reserve == old(reserve)
      ensures err == 0 ==> Valid() && tokens == [] && strings == [] && reserve == old(reserve) + [Entry(0, 0)]
      ensures err == 0 ==>
        EntriesOk(reserve) && Holds(head, HEADER, MapBytes(reserve)) && Room() == |bytes| - old(offStruct) - ENTRY
    {
      err := AddReserve(Entry(0, 0));
      if err == 0 { NothingWritten(bytes, offStruct); }
    }

    /** _fdt_grab_space: the offset of the new space, or -1. */
    method GrabSpace(len: int) returns (q: int)
      requires Layout() && 0 <= len
      modifies this`sizeStruct, this`structure
      ensures Layout()
      ensures q == -1 <==> old(Room()) < len
      ensures Room() == old(Room()) - (if q == -1 then 0 else len)
      ensures q == -1 ==> structure == old(structure) && sizeStruct == old(sizeStruct)
      ensures q != -1 ==>
        q == |old(structure)| && |structure| == q + len && Around(old(structure), q, q, structure, q + len)
    {
      if sizeStruct + len > |bytes| - offStruct - sizeStrings { return -1; }
      q := sizeStruct;
      ghost var s := structure;
      sizeStruct := sizeStruct + len;
      structure := bytes[offStruct..offStruct + sizeStruct];
      Grown(bytes, offStruct, q, len);
    }

    /** Write into the structure block. */
    method Put(q: int, x: seq<byte>)
      requires Layout() && 0 <= q && q + |x| <= |structure|
      modifies this`bytes, this`structure
      ensures Layout() && |bytes| == old(|bytes|) && IsPatched(old(structure), q, x, structure)
    {
      PatchedBlocks(bytes, offStruct, sizeStruct, |bytes| - sizeStrings, sizeStrings, q, x);
      PatchedHead(bytes, offStruct, offStruct + q, x);
      bytes := Patched(bytes, offStruct + q, x);
      Patch(structure, q, x);
      structure := Patched(structure, q, x);
    }

    /** fdt_begin_node */
    method BeginNode(name: seq<byte>) returns (err: int, ghost pad: seq<byte>)
      requires Valid() && NoNul(name)
      modifies this`bytes, this`sizeStruct, this`structure, this`tokens
      ensures Valid() && |bytes| == old(|bytes|)
      ensures err == 0 || (err == ERR_NOSPACE && tokens == old(tokens))
      ensures err == 0 ==> TokenOk(Begin(name, pad)) && tokens == old(tokens) + [Begin(name, pad)]
      ensures Told(Grab(old(Sizes()), 4 + Align4(|name| + 1)), err)
      ensures Takes(old(Room()), Room(), 4 + Align4(|name| + 1), err)
    {
      ghost var s, l, room := structure, Sizes(), Room();
      SizesOk();
      err, pad := AppendBegin(name);
      if err == 0 {
        WriteToken(s, strings, tokens, Begin(name, pad), structure);
        tokens := tokens + [Begin(name, pad)];
      }
      Tells(l, room, 4 + Align4(|name| + 1), err);
    }

    method AppendBegin(name: seq<byte>) returns (err: int, ghost pad: seq<byte>)
      requires Layout() && NoNul(name)
      modifies this`bytes, this`sizeStruct, this`structure
      ensures Layout() && |bytes| == old(|bytes|)
      ensures err == 0 || (err == ERR_NOSPACE && structure == old(structure))
      ensures err == 0 ==> TokenOk(Begin(name, pad))
      ensures Takes(old(Room()), Room(), 4 + Align4(|name| + 1), err)
      ensures err == 0 ==>
        Exchanged(old(structure), |old(structure)|, |old(structure)|, Encode(Begin(name, pad)), structure)
    {
      ghost var s := structure;
      var n := Align4(|name| + 1);
      var q := GrabSpace(4 + n);
      if q == -1 { return ERR_NOSPACE, []; }
      ghost var t := structure;
      Put(q, Word(BEGIN_NODE));
      ghost var t1 := structure;
      Put(q + 4, name + [0]);
      pad := BeginWritten(s, q, n, name, |t|, t, t1, structure);
      err := 0;
    }

    /** fdt_end_node, and the end tag of fdt_finish. */
    method PutTag(tag: Token) returns (err: int)
      requires Valid() && (tag.EndNode? || tag.End?)
      modifies this`bytes, this`sizeStruct, this`structure, this`tokens
      ensures Valid() && |bytes| == old(|bytes|)
      ensures err == 0 || (err == ERR_NOSPACE && tokens == old(tokens))
      ensures err == 0 ==> tokens == old(tokens) + [tag]
      ensures Told(Grab(old(Sizes()), 4), err)
      ensures Takes(old(Room()), Room(), 4, err)
    {
      ghost var s, l, room := structure, Sizes(), Room();
      SizesOk();
      var q := GrabSpace(4);
      err := ERR_NOSPACE;
      if q != -1 {
        ghost var t := structure;
        Put(q, Word(TagOf(tag)));
        TagWritten(s, q, tag, t, structure, q + 4);
        WriteToken(s, strings, tokens, tag, structure);
        tokens := tokens + [tag];
        err := 0;
      }
      Tells(l, room, 4, err);
    }

    ghost function Sizes(): Ledger
      reads this
    {
      Ledger(|bytes|, offStruct + sizeStruct, strings)
    }

    /** The answer and the state are those of the ledger; after an overrun nothing is left of the writer's state. */
    ghost predicate Told(o: Outcome, err: int)
      reads this
    {
      IsTold(o, err) == true
    }

    ghost predicate IsTold(o: Outcome, err: int)
      reads this
    {
      err == Answer(o) && (!o.Overrun? ==> Valid()) && (o.Fits? ==> Sizes() == o.ledger)
    }

    /** _fdt_find_add_string: the distance of a name from the table's end as a negative number, or 0 for no room. The
        number of bytes that it writes in front of the buffer is ahead; then the rest of the name is over all that is
        before the table. */
    method FindAddString(name: seq<byte>) returns (off: int, ahead: int, ghost more: seq<byte>)
      requires Valid() && NoNul(name)
      modifies this`bytes, this`sizeStrings, this`strings
      ensures |bytes| == old(|bytes|) && strings == more + old(strings) && off <= 0 && ahead >= 0
      ensures ahead > 0 <==> AddName(old(Sizes()), name) == Overrun
      ensures ahead > 0 ==> RunOver(old(strings), name, ahead, bytes)
      ensures ahead == 0 ==> Valid() && (off == 0 <==> AddName(old(Sizes()), name) == Full)
      ensures ahead == 0 && off < 0 ==> AddName(old(Sizes()), name) == Fits(Sizes())
      ensures ahead == 0 && off < 0 ==> IsNamed(strings, off + WORDS, name)
      ensures Costs(old(Room()), Room(), |name| + 1, if off == 0 then ERR_NOSPACE else ahead)
    {
      SizesOk();
      var p := FindString(Table(), name);
      if p >= 0 {
        TableName(strings, p, name);
        off, ahead, more := p - sizeStrings, 0, [];
      } else {
        off, ahead, more := AddString(name);
      }
    }

    /** The part that adds the name. */
    method AddString(name: seq<byte>) returns (off: int, ahead: int, ghost more: seq<byte>)
      requires Valid() && NoNul(name) && !InTable(strings, name)
      modifies this`bytes, this`sizeStrings, this`strings
      ensures |bytes| == old(|bytes|) && strings == more + old(strings) && off <= 0 && ahead >= 0
      ensures ahead > 0 <==> AddName(old(Sizes()), name) == Overrun
      ensures ahead > 0 ==> RunOver(old(strings), name, ahead, bytes)
      ensures ahead == 0 ==> Valid() && (off == 0 <==> AddName(old(Sizes()), name) == Full)
      ensures ahead == 0 && off < 0 ==> AddName(old(Sizes()), name) == Fits(Sizes())
      ensures ahead == 0 && off < 0 ==> IsNamed(strings, off + WORDS, name)
      ensures Costs(old(Room()), Room(), |name| + 1, if off == 0 then ERR_NOSPACE else ahead)
    {
      SizesOk();
      NameTakes(Sizes(), name);
      var len := |name| + 1;
      more, ahead, off := [], 0, 0;
      if (|bytes| - sizeStrings - len) % WORDS >= offStruct + sizeStruct {
        off := -sizeStrings - len;
        if sizeStrings + len > |bytes| {
          ahead := sizeStrings + len - |bytes|;
          bytes := (name + [0])[ahead..] + Table();
        } else {
          more := name + [0];
          PrependName(name);
        }
      }
    }

    method PrependName(name: seq<byte>)
      requires Valid() && NoNul(name) && offStruct + sizeStruct + sizeStrings + |name| + 1 <= |bytes|
      modifies this`bytes, this`sizeStrings, this`strings
      ensures Valid() && |bytes| == old(|bytes|) && strings == name + [0] + old(strings)
      ensures Room() == old(Room()) - (|name| + 1)
      ensures sizeStrings == old(sizeStrings) + |name| + 1
      ensures IsNamed(strings, WORDS - sizeStrings, name)
    {
      Prepend(name + [0]);
      NamesFixableGrow(name + [0], old(strings), tokens);
      HeldFirst(name, old(strings));
    }

    /** What was grabbed is told. */
    lemma Tells(l: Ledger, room: int, n: int, err: int)
      requires Valid() && l.size == |bytes| && l.table == strings && room == l.size - l.top - |l.table|
      requires Takes(room, Room(), n, err) && (err == 0 || err == ERR_NOSPACE)
      ensures Told(Grab(l, n), err)
    {
      SizesOk();
    }

    lemma SizesOk()
      requires Layout()
      ensures LedgerOk(Sizes()) && |strings| == sizeStrings
    {
    }

    /** The copy of a string in front of the table. */
    method Prepend(x: seq<byte>)
      requires Layout() && |x| > 0 && offStruct + sizeStruct + sizeStrings + |x| <= |bytes|
      modifies this`bytes, this`sizeStrings, this`strings
      ensures Layout() && |bytes| == old(|bytes|) && strings == x + old(strings) && Room() == old(Room()) - |x|
    {
      var at := |bytes| - sizeStrings - |x|;
      PrependedBlocks(bytes, offStruct, sizeStruct, at, x);
      bytes := Patched(bytes, at, x);
      sizeStrings := sizeStrings + |x|;
      strings := x + strings;
    }

    /** The three words of a property. */
    method PutHeader(q: int, nameoff: int, len: int, ghost s: seq<byte>, ghost c: int)
      requires Layout() && 0 <= len < LENGTHS && 0 <= nameoff < WORDS && 0 <= q && q + 12 <= c <= |structure|
      requires Around(s, q, q, structure, c)
      modifies this`bytes, this`structure
      ensures Layout() && |bytes| == old(|bytes|) && |structure| == old(|structure|)
      ensures Around(s, q, q, structure, c) && HeaderHeld(structure, q, len, nameoff)
    {
      ghost var t := structure;
      Put(q, Word(PROP));
      ghost var t1 := structure;
      Put(q + 8, Word(nameoff));
      ghost var t2 := structure;
      Put(q + 4, Word(len));
      HeaderWritten(s, q, nameoff, len, c, t, t1, t2, structure);
    }

    /** The second half of fdt_property. */
    method PutProperty(nameoff: int, value: seq<byte>, ghost name: seq<byte>) returns (err: int, ghost pad: seq<byte>)
      requires Valid() && |value| < LENGTHS && IsNamed(strings, nameoff, name)
      modifies this`bytes, this`sizeStruct, this`structure, this`tokens
      ensures Valid() && |bytes| == old(|bytes|)
      ensures err == 0 || (err == ERR_NOSPACE && tokens == old(tokens))
      ensures err == 0 ==> TokenOk(Prop(nameoff, value, pad)) && tokens == old(tokens) + [Prop(nameoff, value, pad)]
      ensures Told(Grab(old(Sizes()), 12 + Align4(|value|)), err)
      ensures Takes(old(Room()), Room(), 12 + Align4(|value|), err)
    {
      ghost var s, l, room := structure, Sizes(), Room();
      SizesOk();
      err, pad := AppendProperty(nameoff, value);
      if err == 0 {
        WriteNamed(s, strings, tokens, Prop(nameoff, value, pad), name, structure);
        tokens := tokens + [Prop(nameoff, value, pad)];
      }
      Tells(l, room, 12 + Align4(|value|), err);
    }

    method AppendProperty(nameoff: int, value: seq<byte>) returns (err: int, ghost pad: seq<byte>)
      requires Layout() && 0 <= nameoff < WORDS && |value| < LENGTHS
      modifies this`bytes, this`sizeStruct, this`structure
      ensures Layout() && |bytes| == old(|bytes|)
      ensures err == 0 || (err == ERR_NOSPACE && structure == old(structure))
      ensures err == 0 ==> TokenOk(Prop(nameoff, value, pad))
      ensures Takes(old(Room()), Room(), 12 + Align4(|value|), err)
      ensures err == 0 ==>
        Exchanged(old(structure), |old(structure)|, |old(structure)|, Encode(Prop(nameoff, value, pad)), structure)
    {
      ghost var s := structure;
      pad := [];
      var proplen := 12 + Align4(|value|);
      var q := GrabSpace(proplen);
      if q == -1 { return ERR_NOSPACE, []; }
      ghost var c := q + proplen;
      PutHeader(q, nameoff, |value|, s, c);
      ghost var t := structure;
      Put(q + 12, value);
      pad := ValueWritten(s, q, q, t, c, nameoff, value, structure);
      PropToken(s, q, structure, nameoff, value, pad);
      err := 0;
    }

    /** fdt_property: on failure the strings table may have grown, but no token was written. */
    method Property(name: seq<byte>, value: seq<byte>) returns (err: int, ghost item: Item, ghost more: seq<byte>)
      requires Valid() && NoNul(name) && |value| < LENGTHS
      modifies this`bytes, this`sizeStruct, this`sizeStrings, this`structure, this`strings, this`tokens
      ensures |bytes| == old(|bytes|) && Told(AddProp(old(Sizes()), name, value), err) && strings == more + old(strings)
      ensures err != 0 ==> tokens == old(tokens)
      ensures err == 0 ==> item.PropItem? && item.value == value && tokens == old(tokens) + FlattenItem(item)
      ensures err == 0 ==> IsNamed(strings, item.nameoff, name)
      ensures Costs(old(Room()), Room(), |name| + 1 + 12 + Align4(|value|), err)
    {
      item := NopItem;
      var off, ahead;
      off, ahead, more := FindAddString(name);
      if ahead > 0 {
        err := OVERRUN;
      } else if off == 0 {
        err := ERR_NOSPACE;
      } else {
        err, item := NamedProperty(off, name, value);
      }
    }

    method NamedProperty(off: int, ghost name: seq<byte>, value: seq<byte>) returns (err: int, ghost item: Item)
      requires Valid() && |value| < LENGTHS && off < 0 && IsNamed(strings, off + WORDS, name)
      modifies this`bytes, this`sizeStruct, this`structure, this`tokens
      ensures |bytes| == old(|bytes|) && Told(Grab(old(Sizes()), 12 + Align4(|value|)), err)
      ensures err != 0 ==> tokens == old(tokens)
      ensures err == 0 ==> item.PropItem? && item.value == value && tokens == old(tokens) + FlattenItem(item)
      ensures err == 0 ==> IsNamed(strings, item.nameoff, name)
      ensures Takes(old(Room()), Room(), 12 + Align4(|value|), err)
    {
      item := NopItem;
      ghost var pad;
      var nameoff := off + WORDS;
      err, pad := PutProperty(nameoff, value, name);
      if err == 0 {
        item := PropItem(nameoff, value, pad);
      }
    }

    /** fdt_finish: the blob holds what was written, with every name offset put right. */
    method Finish(ghost n: Node) returns (err: int, blob: Blob?)
      requires Valid() && tokens == Flatten(n) && Ordered(n)
      modifies this`bytes, this`sizeStruct, this`structure, this`tokens
      ensures err == Answer(Grab(old(Sizes()), 4))
      ensures err == 0 ==>
        blob != null && fresh(blob) && blob.Valid() && NamesFixable(strings, Flatten(n))
        && blob.meaning == RawView(n, strings)
      ensures err == 0 ==>
        |blob.bytes| == blob.offStrings + blob.sizeStrings && blob.head == head && blob.offStruct == offStruct
    {
      ghost var table := strings;
      WrittenIs(structure, strings, tokens);
      blob := null;
      err := PutTag(End);
      if err != 0 { return; }
      blob := Conclude(n, table);
    }

    /** The strings table is moved and the name offsets are put right. */
    method Conclude(ghost n: Node, ghost table: seq<byte>) returns (blob: Blob)
      requires Valid() && tokens == Flatten(n) + [End] && strings == table && Ordered(n)
      requires NamesFixable(table, Flatten(n))
      ensures fresh(blob) && blob.Valid() && blob.meaning == RawView(n, table)
      ensures |blob.bytes| == blob.offStrings + blob.sizeStrings && blob.head == head && blob.offStruct == offStruct
    {
      WrittenIs(structure, strings, tokens);
      NoEndInNode(n);
      blob := Relocate();
      Complete(blob, n, table);
    }

    /** The strings table is moved down to the end of the structure block. */
    method Relocate() returns (blob: Blob)
      requires Layout()
      ensures fresh(blob) && blob.Layout() && blob.structure == structure && blob.strings == strings
      ensures blob.offStruct == offStruct && blob.head == head
    {
      var old', new' := |bytes| - sizeStrings, offStruct + sizeStruct;
      MovedBlocks(bytes, offStruct, sizeStruct, old');
      blob := new Blob(Moved(bytes, new', old', sizeStrings), offStruct, sizeStruct, new', sizeStrings);
    }
  }

  /** One more entry at the end of the map. */
  lemma EntryAppended(b: seq<byte>, c: seq<byte>, head: seq<byte>, es: seq<Entry>, e: Entry, end: int)
    requires EntriesOk(es) && EntryOk(e) && end == HEADER + ENTRY * (|es| + 1) <= |b|
    requires c == Patched(Patched(b, end - ENTRY, Word64(e.address)), end - 8, Word64(e.size))
    requires es != [] ==> head == b[..end - ENTRY] && Holds(head, HEADER, MapBytes(es))
    ensures EntriesOk(es + [e]) && Holds(c[..end], HEADER, MapBytes(es + [e]))
  {
    MapBytesLast(es, e);
    PatchedTwice(b, end - ENTRY, Word64(e.address), Word64(e.size));
    BytesAppended(b, c, head, MapBytes(es), EntryBytes(e), end - ENTRY, end);
  }

  lemma BytesAppended(b: seq<byte>, c: seq<byte>, head: seq<byte>, x: seq<byte>, y: seq<byte>, at: int, end: int)
    requires HEADER + |x| == at && at + |y| == end <= |b| && c == Patched(b, at, y)
    requires x != [] ==> head == b[..at] && Holds(head, HEADER, x)
    ensures Holds(c[..end], HEADER, x + y)
  {
    PatchedEnd(b, at, y, end);
    if x == [] {
      IsHeld(c[..end], HEADER, []);
    } else {
      HeldIs(head, HEADER, x);
      HeldInPrefix(b, c[..end], HEADER, x, at);
    }
    HoldsParts(c[..end], HEADER, x, y);
  }

  lemma PatchedTwice(b: seq<byte>, at: int, x: seq<byte>, y: seq<byte>)
    requires 0 <= at && at + |x| + |y| <= |b|
    ensures Patched(Patched(b, at, x), at + |x|, y) == Patched(b, at, x + y)
  {
  }

  lemma PatchedEnd(b: seq<byte>, at: int, x: seq<byte>, end: int)
    requires 0 <= at && at + |x| == end <= |b|
    ensures Patched(b, at, x)[..end][..at] == b[..at] && Holds(Patched(b, at, x)[..end], at, x)
  {
    IsHeld(Patched(b, at, x)[..end], at, x);
  }

  lemma HeldInPrefix(b: seq<byte>, h: seq<byte>, off: int, x: seq<byte>, at: int)
    requires 0 <= off && off + |x| <= at <= |b| && at <= |h| && h[..at] == b[..at] && b[..at][off..off + |x|] == x
    ensures Holds(h, off, x)
  {
    assert h[off..off + |x|] == h[..at][off..off + |x|];
    IsHeld(h, off, x);
  }

  lemma NothingWritten(b: seq<byte>, at: int)
    requires 0 <= at <= |b|
    ensures b[at..at] == [] && b[|b|..] == [] && Written([], [], [])
  {
  }

  // ---------------------------------------------------------------- putting the name offsets right

  /** The tokens with the first i put right. */
  ghost function Mixed(ts: seq<Token>, i: int, size: int): seq<Token>
    requires 0 <= i <= |ts|
  {
    FixAll(ts[..i], size) + ts[i..]
  }

  lemma FixOk(ts: seq<Token>, size: int)
    requires AllOk(ts)
    ensures AllOk(FixAll(ts, size))
  {
    forall i | 0 <= i < |ts| ensures TokenOk(FixAll(ts, size)[i]) { assert TokenOk(ts[i]); }
  }

  /** The part put right, the token at hand and the rest. */
  lemma MixedParts(ts: seq<Token>, i: int, size: int)
    requires 0 <= i < |ts| && AllOk(ts)
    ensures AllOk(FixAll(ts[..i], size)) && TokenOk(ts[i]) && TokenOk(FixToken(ts[i], size)) && AllOk(ts[i + 1..])
    ensures Mixed(ts, i, size) == FixAll(ts[..i], size) + [ts[i]] + ts[i + 1..]
    ensures Mixed(ts, i + 1, size) == FixAll(ts[..i], size) + [FixToken(ts[i], size)] + ts[i + 1..]
    ensures FixAll(ts[..i + 1], size) == FixAll(ts[..i], size) + [FixToken(ts[i], size)]
  {
    FixOk(ts[..i], size);
    CutAround(ts, i);
    FixAllConcat(ts[..i], [ts[i]], size);
    assert FixAll([ts[i]], size) == [FixToken(ts[i], size)];
  }

  lemma PatchedMiddle(a: seq<byte>, x: seq<byte>, c: seq<byte>, k: int, w: seq<byte>, at: int)
    requires 0 <= k <= |x| - |w| && at == |a| + k
    ensures Patched(a + x + c, at, w) == a + Patched(x, k, w) + c
  {
  }

  lemma PatchedName(nameoff: int, value: seq<byte>, pad: seq<byte>, nameoff': int)
    requires TokenOk(Prop(nameoff, value, pad)) && 0 <= nameoff' < WORDS
    ensures TokenOk(Prop(nameoff', value, pad)) && |Encode(Prop(nameoff, value, pad))| >= 12
    ensures Patched(Encode(Prop(nameoff, value, pad)), 8, Word(nameoff')) == Encode(Prop(nameoff', value, pad))
  {
  }

  /** The walk of fdt_finish is at token i, at offset off, and the tokens before it are put right. */
  ghost predicate MixedAt(s: seq<byte>, ts: seq<Token>, i: nat, size: int, off: int) {
    MixedBytes(s, ts, i, size, off) == true
  }

  ghost predicate MixedBytes(s: seq<byte>, ts: seq<Token>, i: nat, size: int, off: int) {
    && i < |ts| && AllOk(ts)
    && forall key: Key :: Opens(key) && key == OfTree ==>
      && AllOk(FixAll(ts[..i], size)) && off == |EncodeAll(FixAll(ts[..i], size))|
      && AllOk(Mixed(ts, i, size)) && s == EncodeAll(Mixed(ts, i, size))
  }

  lemma MixedStart(ts: seq<Token>, size: int)
    requires AllOk(ts) && ts != []
    ensures MixedAt(EncodeAll(ts), ts, 0, size, 0)
  {
    assert FixAll(ts[..0], size) == [];
    assert Mixed(ts, 0, size) == ts;
  }

  lemma MixedEnd(s: seq<byte>, ts: seq<Token>, i: nat, size: int, off: int, body: seq<Token>)
    requires MixedAt(s, ts, i, size, off) && ts == body + [End] && i == |body|
    ensures AllOk(FixAll(body, size) + [End]) && s == EncodeAll(FixAll(body, size) + [End])
  {
    assert Opens(OfTree);
    assert ts[..i] == body && ts[i..] == [End];
  }

  /** Writing one name offset puts one more token right. */
  lemma FixStep(s: seq<byte>, ts: seq<Token>, i: nat, size: int, off: int, at: int, next: int, w: int, u: seq<byte>)
    requires MixedAt(s, ts, i, size, off) && i + 1 < |ts| && ts[i].Prop? && TokenOk(ts[i]) && at == off + 8
    requires next == off + |Encode(ts[i])|
    requires w == FixOff(ts[i].nameoff, size) && IsPatched(s, at, Word(w), u)
    ensures MixedAt(u, ts, i + 1, size, next)
  {
    assert Opens(OfTree);
    assert Opens(OfBytes);
    var a, t, c := FixAll(ts[..i], size), ts[i], ts[i + 1..];
    MixedParts(ts, i, size);
    EncodeMiddle(a, t, c);
    EncodeMiddle(a, FixToken(t, size), c);
    EncodeLast(a, FixToken(t, size));
    PatchedName(t.nameoff, t.value, t.pad, FixOff(t.nameoff, size));
    PatchedMiddle(EncodeAll(a), Encode(t), EncodeAll(c), 8, Word(FixOff(t.nameoff, size)), at);
  }

  lemma FixNothing(s: seq<byte>, ts: seq<Token>, i: nat, size: int, off: int, next: int)
    requires MixedAt(s, ts, i, size, off) && i + 1 < |ts| && !ts[i].Prop? && TokenOk(ts[i])
    requires next == off + |Encode(ts[i])|
    ensures MixedAt(s, ts, i + 1, size, next)
  {
    assert Opens(OfTree);
    MixedParts(ts, i, size);
    EncodeLast(FixAll(ts[..i], size), ts[i]);
  }

  /** The token at hand is read at its offset. */
  lemma MixedRead(s: seq<byte>, ts: seq<Token>, i: nat, size: int, off: int, next: int)
    requires MixedAt(s, ts, i, size, off) && TokenOk(ts[i]) && next == off + |Encode(ts[i])|
    ensures LaidAt(s, ts[i], off, next)
  {
    assert Opens(OfTree);
    var a, t, c := FixAll(ts[..i], size), ts[i], ts[i + 1..];
    MixedParts(ts, i, size);
    assert s[0..|s|] == s;
    IsHeld(s, 0, s);
    MiddleHeld(s, 0, a, t, c, off);
    EncodeAllAligned(a);
    HeldIsLaid(s, off, t, next);
  }

  /** The loop of fdt_finish. */
  method FixNames(blob: Blob, ghost body: seq<Token>)
    requires blob.Layout() && End !in body && AllOk(body + [End]) && blob.structure == EncodeAll(body + [End])
    modifies blob`bytes, blob`structure
    ensures blob.Layout() && AllOk(FixAll(body, |blob.strings|) + [End])
    ensures blob.structure == EncodeAll(FixAll(body, |blob.strings|) + [End])
  {
    ghost var ts, size := body + [End], |blob.strings|;
    var off := 0;
    ghost var i := 0;
    MixedStart(ts, size);
    while true
      invariant blob.Layout() && 0 <= i < |ts| && MixedAt(blob.structure, ts, i, size, off)
      decreases |ts| - i
    {
      assert ts[i] == End ==> i == |body|;
      var done, next := FixNext(blob, ts, i, off);
      if done { break; }
      off := next;
      i := i + 1;
    }
    MixedEnd(blob.structure, ts, i, size, off, body);
  }

  method FixNext(blob: Blob, ghost ts: seq<Token>, ghost i: nat, off: int) returns (done: bool, next: int)
    requires blob.Layout() && i < |ts| && MixedAt(blob.structure, ts, i, |blob.strings|, off)
    requires (ts[i] != End ==> i + 1 < |ts|)
    modifies blob`bytes, blob`structure
    ensures blob.Layout() && done == (ts[i] == End)
    ensures MixedAt(blob.structure, ts, if done then i else i + 1, |blob.strings|, if done then off else next)
  {
    ghost var end := off + |Encode(ts[i])|;
    MixedRead(blob.structure, ts, i, |blob.strings|, off, end);
    var tag;
    tag, next := NextTag(blob.Struct(), off);
    done := tag == END;
    if tag == PROP {
      FixOne(blob, ts, i, off, next);
    } else if !done {
      FixNothing(blob.structure, ts, i, |blob.strings|, off, next);
    }
  }

  /** The names are put right, and the total size is set. */
  method Complete(blob: Blob, ghost n: Node, ghost table: seq<byte>)
    requires blob.Layout() && blob.strings == table && Ordered(n) && NamesFixable(table, Flatten(n))
    requires End !in Flatten(n)
    requires AllOk(Flatten(n) + [End]) && blob.structure == EncodeAll(Flatten(n) + [End])
    modifies blob`bytes, blob`structure, blob`tree, blob`meaning
    ensures blob.Valid() && blob.meaning == RawView(n, table)
    ensures |blob.bytes| == blob.offStrings + blob.sizeStrings
  {
    FixNames(blob, Flatten(n));
    ghost var root, view := FinishedTree(blob.structure, table, n);
    blob.Truncate(root, view);
  }

  lemma SizeIs(blob: Blob)
    requires blob.Layout()
    ensures blob.sizeStrings == |blob.strings|
  {
  }

  method FixOne(blob: Blob, ghost ts: seq<Token>, ghost i: nat, off: int, ghost next: int)
    requires blob.Layout() && i + 1 < |ts| && ts[i].Prop? && TokenOk(ts[i]) && next == off + |Encode(ts[i])|
    requires MixedAt(blob.structure, ts, i, |blob.strings|, off) && LaidAt(blob.structure, ts[i], off, next)
    modifies blob`bytes, blob`structure
    ensures blob.Layout() && MixedAt(blob.structure, ts, i + 1, |blob.strings|, next)
  {
    ghost var s := blob.structure;
    var at := off + 8;
    var nameoff := WordAt(blob.Struct(), at);
    var w := FixOff(nameoff, blob.sizeStrings);
    SizeIs(blob);
    blob.Put(at, Word(w));
    FixStep(s, ts, i, |blob.strings|, off, at, next, w, blob.structure);
  }

  /** The finished blocks hold the tree. */
  lemma FinishedTree(s: seq<byte>, strings: seq<byte>, n: Node) returns (root: Node, view: View)
    requires NamesFixable(strings, Flatten(n)) && Ordered(n)
    requires AllOk(FixAll(Flatten(n), |strings|) + [End]) && s == EncodeAll(FixAll(Flatten(n), |strings|) + [End])
    ensures Holding(s, strings, root, view) && view == RawView(n, strings)
  {
    root := FixNode(n, |strings|);
    FlattenFix(n, |strings|);
    FixableNames(strings, Flatten(n));
    OrderedFix(n, |strings|);
    assert s[0..|s|] == s;
    IsHeld(s, 0, s);
    CloseTree(s, strings, root);
    MakeHolding(s, strings, root);
    view := ViewOf(root, strings);
  }

  lemma {:induction false} FixItemAt(items: seq<Item>, size: int, i: int)
    requires 0 <= i < |items|
    ensures FixItems(items, size)[i] == FixItem(items[i], size)
    decreases items
  {
    if i > 0 { FixItemAt(items[1..], size, i - 1); }
  }

  lemma {:induction false} OrderedFix(n: Node, size: int)
    requires Ordered(n)
    ensures Ordered(FixNode(n, size))
    decreases n
  {
    var items := FixNode(n, size).items;
    forall i, j | 0 <= i < j < |items| && items[i].ChildItem? ensures !items[j].PropItem? {
      FixItemAt(n.items, size, i);
      FixItemAt(n.items, size, j);
    }
    forall i | 0 <= i < |items| && items[i].ChildItem? ensures Ordered(items[i].node) {
      FixItemAt(n.items, size, i);
      OrderedFix(n.items[i].node, size);
    }
  }

  // ---------------------------------------------------------------- bytes at the end of the block

  /** The bytes of a begin tag at the end of the block. */
  lemma BeginWritten(s: seq<byte>, q: int, n: int, name: seq<byte>, c: int, t: seq<byte>, t1: seq<byte>, u: seq<byte>)
    returns (pad: seq<byte>)
    requires NoNul(name) && q == |s| && n == Align4(|name| + 1) && c == q + 4 + n == |t| && Around(s, q, q, t, c)
    requires IsPatched(t, q, Word(BEGIN_NODE), t1) && IsPatched(t1, q + 4, name + [0], u)
    ensures TokenOk(Begin(name, pad)) && Exchanged(s, q, q, Encode(Begin(name, pad)), u)
  {
    PatchedAround(s, q, q, t, c, q, Word(BEGIN_NODE), t1);
    PatchedAround(s, q, q, t1, c, q + 4, name + [0], u);
    PatchedHolds(t1, q + 4, name + [0], u, q, Word(BEGIN_NODE));
    pad := u[q + 4 + |name| + 1..c];
    IsHeld(u, q + 4 + |name| + 1, pad);
    HoldsParts(u, q + 4, name, [0]);
    HoldsParts(u, q + 4 + |name|, [0], pad);
    BeginHeld(u, q, name, pad);
    AroundExchanged(s, q, q, u, c, Encode(Begin(name, pad)));
  }

  lemma TagWritten(s: seq<byte>, q: int, tag: Token, t: seq<byte>, u: seq<byte>, c: int)
    requires (tag.EndNode? || tag.End?) && q == |s| && c == q + 4 && Around(s, q, q, t, c)
    requires IsPatched(t, q, Word(TagOf(tag)), u)
    ensures Exchanged(s, q, q, Encode(tag), u)
  {
    PatchedAround(s, q, q, t, c, q, Word(TagOf(tag)), u);
    AroundExchanged(s, q, q, u, c, Word(TagOf(tag)));
  }

  lemma PropToken(s: seq<byte>, q: int, u: seq<byte>, nameoff: int, value: seq<byte>, pad: seq<byte>)
    requires PropWritten(s, q, q, u, nameoff, value, pad)
    ensures TokenOk(Prop(nameoff, value, pad)) && Exchanged(s, q, q, Encode(Prop(nameoff, value, pad)), u)
  {
    var item := PropItem(nameoff, value, pad);
    WrittenIsExchanged(s, q, q, u, item);
    PropItemBytes(item);
  }

  /** A name in the table, by its distance from the table's end. */
  lemma TableName(table: seq<byte>, p: int, name: seq<byte>)
    requires NoNul(name) && 0 <= p && Holds(table, p, name + [0]) && |table| < WORDS
    ensures p < |table| && IsNamed(table, p - |table| + WORDS, name)
  {
    HeldString(table, p, name);
    HeldBefore(table, p, name + [0]);
  }

  lemma HeldBefore(s: seq<byte>, off: int, x: seq<byte>)
    requires Holds(s, off, x)
    ensures off + |x| <= |s|
  {
  }

  /** A name put in front of the table is the one at the table's start. */
  lemma HeldFirst(name: seq<byte>, strings: seq<byte>)
    requires NoNul(name)
    ensures NameOk(name + [0] + strings, 0) && StringAt(name + [0] + strings, 0) == name
  {
    var table := name + [0] + strings;
    assert table[0..|name| + 1] == name + [0];
    IsHeld(table, 0, name + [0]);
    HeldString(table, 0, name);
  }

  lemma PrependedBlocks(b: seq<byte>, os: int, ss: int, at: int, x: seq<byte>)
    requires 0 <= os && 0 <= ss && os + ss <= at <= |b| - |x|
    ensures var c := Patched(b, at, x);
      c[..os] == b[..os] && c[os..os + ss] == b[os..os + ss] && c[at..] == x + b[at + |x|..]
  {
  }

  lemma Grown(b: seq<byte>, os: int, q: int, len: int)
    requires 0 <= os && 0 <= q && 0 <= len && os + q + len <= |b|
    ensures Around(b[os..os + q], q, q, b[os..os + q + len], q + len)
  {
    var s, t := b[os..os + q], b[os..os + q + len];
    assert t[..q] == s[..q];
    assert t[q + len..] == [] && s[q..] == [];
  }
}
