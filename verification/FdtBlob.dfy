/**
 The in-place editor of fdt_rw.c and fdt_wip.c: a blob of fixed size with a structure block and a
 strings block in it, edited by moving the bytes behind the place of the edit.
 The header's offset and size fields are fields here, the rest of the blob is bytes.
 */
module FdtBlob {
  import opened Seal
  import opened Options
  import opened FdtFormat
  import opened FdtBytes
  import opened FdtTree
  import opened FdtView
  import opened FdtScan
  import opened FdtRead
  import opened FdtEdits
  import opened FdtLookup
  import opened FdtChange
  import opened FdtHolding
  import opened FdtWritten

  /** The least offset of the structure block: the header and the entry that ends the reserve map come before it. */
  const HEAD := 56

  /** A structure block and a strings block in order within some bytes, with what comes before them. */
  ghost predicate BlocksLie(b: seq<byte>, os: int, ss: int, ot: int, st: int, head: seq<byte>, s: seq<byte>,
                            t: seq<byte>) {
    BlocksInOrder(b, os, ss, ot, st, head, s, t) == true
  }

  ghost predicate BlocksInOrder(b: seq<byte>, os: int, ss: int, ot: int, st: int, head: seq<byte>, s: seq<byte>,
                                t: seq<byte>) {
    && HEAD <= os && 0 <= ss && os + ss <= ot && 0 <= st && ot + st <= |b| < 0x8000_0000
    && head == b[..os] && s == b[os..os + ss] && t == b[ot..ot + st]
  }

  /** The blocks after the bytes behind a place in the structure block were moved. */
  lemma SplicedInOrder(b: seq<byte>, c: seq<byte>, os: int, ss: int, ot: int, st: int, head: seq<byte>, s: seq<byte>,
                       t: seq<byte>,
                       q: int, oldlen: int, newlen: int, to: int, from: int, n: int, ss': int, ot': int)
    requires BlocksLie(b, os, ss, ot, st, head, s, t) && 0 <= q && 0 <= oldlen && 0 <= newlen && q + oldlen <= ss
    requires to == os + q + newlen && from == os + q + oldlen && n == ot + st - from && IsMoved(b, c, to, from, n)
    requires ss' == ss + newlen - oldlen && ot' == ot + newlen - oldlen && ot' + st <= |b|
    ensures os + ss' <= |c| && BlocksLie(c, os, ss', ot', st, head, c[os..os + ss'], t)
    ensures Spliced(s, q, oldlen, newlen, c[os..os + ss'])
  {
    MovedHead(b, c, os, to, from, n);
    SplicedBlocks(b, c, s, t, os, ot, q, oldlen, newlen, to, from, n);
    MovedLength(b, c, to, from, n);
  }

  /** And after bytes were appended to the strings block. */
  lemma AppendedInOrder(b: seq<byte>, os: int, ss: int, ot: int, st: int, head: seq<byte>, s: seq<byte>, t: seq<byte>,
                        x: seq<byte>, end: int, st': int)
    requires BlocksLie(b, os, ss, ot, st, head, s, t) && end == ot + st && end + |x| <= |b| && st' == st + |x|
    ensures BlocksLie(Patched(b, end, x), os, ss, ot, st', head, s, t + x)
  {
    AppendedBlocks(b, os, ss, ot, st, x);
    PatchedHead(b, os, end, x);
  }

  class Blob {
    var bytes: seq<byte>
    var offStruct: int
    var sizeStruct: int
    var offStrings: int
    var sizeStrings: int
    ghost var head: seq<byte>
    ghost var structure: seq<byte>
    ghost var strings: seq<byte>
    ghost var tree: Node
    ghost var meaning: View

    /** The blocks are in order and within the blob (_fdt_rw_check_header). */
    ghost predicate Layout()
      reads this
    {
      BlocksLie(bytes, offStruct, sizeStruct, offStrings, sizeStrings, head, structure, strings)
    }

    constructor (bytes: seq<byte>, offStruct: int, sizeStruct: int, offStrings: int, sizeStrings: int)
      requires HEAD <= offStruct && 0 <= sizeStruct && offStruct + sizeStruct <= offStrings
      requires 0 <= sizeStrings && offStrings + sizeStrings <= |bytes| < 0x8000_0000
      ensures Layout() && this.bytes == bytes && this.offStruct == offStruct && this.sizeStruct == sizeStruct
      ensures this.offStrings == offStrings && this.sizeStrings == sizeStrings
      ensures structure == bytes[offStruct..offStruct + sizeStruct]
      ensures strings == bytes[offStrings..offStrings + sizeStrings]
      ensures head == bytes[..offStruct]
    {
      this.bytes, this.offStruct, this.sizeStruct, this.offStrings, this.sizeStrings :=
        bytes, offStruct, sizeStruct, offStrings, sizeStrings;
      structure, strings := bytes[offStruct..offStruct + sizeStruct], bytes[offStrings..offStrings + sizeStrings];
      head := bytes[..offStruct];
      tree, meaning := Node([], [], []), View([], [], []);
    }

    function Struct(): (s: seq<byte>)
      requires Layout()
      reads this
      ensures s == structure
    {
      bytes[offStruct..offStruct + sizeStruct]
    }

    function Strings(): (s: seq<byte>)
      requires Layout()
      reads this
      ensures s == strings
    {
      bytes[offStrings..offStrings + sizeStrings]
    }

    /** The bytes behind the strings block. */
    ghost function Room(): int
      reads this
    {
      |bytes| - offStrings - sizeStrings
    }

    /** The blob holds a tree with its meaning. */
    ghost predicate Valid()
      reads this
    {
      Layout() && Holding(structure, strings, tree, meaning)
    }

    /** The offset argument, if it passes the check, is that of the node at path p. */
    ghost predicate Names(off: int, p: seq<nat>)
      reads this
    {
      Argument(structure, tree, p, off)
    }

    /** The total size becomes what the blocks take up. */
    method Truncate(ghost root: Node, ghost view: View)
      requires Layout() && Holding(structure, strings, root, view)
      modifies this`bytes, this`tree, this`meaning
      ensures Valid() && meaning == view && bytes == old(bytes)[..offStrings + sizeStrings]
    {
      TruncatedBlocks(bytes, offStrings + sizeStrings, offStruct, offStruct + sizeStruct, offStrings);
      TruncatedBlocks(bytes, offStrings + sizeStrings, 0, offStruct, offStrings);
      bytes := bytes[..offStrings + sizeStrings];
      tree, meaning := root, view;
    }

    /** _fdt_splice */
    method Splice(p: int, oldlen: int, newlen: int, ghost to: int, ghost from: int, ghost n: int) returns (err: int)
      requires Layout() && 0 <= p && 0 <= oldlen && 0 <= newlen && p + oldlen <= offStrings + sizeStrings
      requires to == p + newlen && from == p + oldlen && n == offStrings + sizeStrings - from
      modifies this`bytes
      ensures var end := offStrings + sizeStrings;
        if end - oldlen + newlen > |old(bytes)| then err == ERR_NOSPACE && bytes == old(bytes)
        else err == 0 && IsMoved(old(bytes), bytes, to, from, n)
    {
      var end := offStrings + sizeStrings;
      if p + oldlen > end { return ERR_BADOFFSET; }
      if end - oldlen + newlen > |bytes| { return ERR_NOSPACE; }
      MovedAt(bytes, p + newlen, p + oldlen, end - p - oldlen);
      bytes := Moved(bytes, p + newlen, p + oldlen, end - p - oldlen);
      err := 0;
    }

    /** _fdt_splice_struct */
    method SpliceStruct(q: int, oldlen: int, newlen: int) returns (err: int)
      requires Layout() && 0 <= q && 0 <= oldlen && 0 <= newlen && q + oldlen <= |structure|
      modifies this`bytes, this`sizeStruct, this`offStrings, this`structure
      ensures Layout() && |bytes| == old(|bytes|)
      ensures err == if old(Room()) + oldlen < newlen then ERR_NOSPACE else 0
      ensures err != 0 ==> bytes == old(bytes) && structure == old(structure)
      ensures err == 0 ==> Spliced(old(structure), q, oldlen, newlen, structure)
    {
      ghost var b, s, t := bytes, structure, strings;
      ghost var to, from := offStruct + q + newlen, offStruct + q + oldlen;
      ghost var n := offStrings + sizeStrings - from;
      err := Splice(offStruct + q, oldlen, newlen, to, from, n);
      if err != 0 { return; }
      var ss, ot := sizeStruct + newlen - oldlen, offStrings + newlen - oldlen;
      SplicedInOrder(b, bytes, offStruct, sizeStruct, offStrings, sizeStrings, head, s, t, q, oldlen, newlen, to, from,
        n, ss, ot);
      sizeStruct, offStrings, structure := ss, ot, bytes[offStruct..offStruct + ss];
    }

    /** Write into the structure block. */
    method Put(q: int, x: seq<byte>)
      requires Layout() && 0 <= q && q + |x| <= |structure|
      modifies this`bytes, this`structure
      ensures Layout() && |bytes| == old(|bytes|) && IsPatched(old(structure), q, x, structure)
    {
      PatchedBlocks(bytes, offStruct, sizeStruct, offStrings, sizeStrings, q, x);
      PatchedHead(bytes, offStruct, offStruct + q, x);
      bytes := Patched(bytes, offStruct + q, x);
      Patch(structure, q, x);
      structure := Patched(structure, q, x);
    }

    method PutWord(q: int, w: int)
      requires Layout() && 0 <= q && q + 4 <= |structure| && 0 <= w < WORDS
      modifies this`bytes, this`structure
      ensures Layout() && |bytes| == old(|bytes|) && WordPut(old(structure), q, w, structure)
    {
      Put(q, Word(w));
    }

    /** _fdt_resize_property, once the property is found at offset r: the old value's first bytes stay. */
    method ResizeProperty(r: int, oldlen: int, len: int, ghost item: Item) returns (err: int)
      requires Layout() && PropHere(structure, r, item) && 0 <= len < LENGTHS && oldlen == |item.value|
      modifies this`bytes, this`sizeStruct, this`offStrings, this`structure
      ensures Layout() && |bytes| == old(|bytes|)
      ensures err != 0 <==> old(Room()) + Align4(oldlen) < Align4(len)
      ensures err == 0 || (err == ERR_NOSPACE && structure == old(structure))
      ensures err == 0 ==> IsResized(old(structure), r, item, len, structure)
    {
      ghost var s := structure;
      var a, b := Align4(oldlen), Align4(len);
      PropRoom(s, r, item, oldlen, r + 12 + a);
      err := SpliceStruct(r + 12, a, b);
      if err != 0 { return; }
      ghost var t := structure;
      SplicedLength(s, r + 12, a, b, t);
      PutWord(r + 4, len);
      Resized(s, r, item, len, a, b, t, structure);
    }

    /** _fdt_find_add_string: the offset of a name in the strings block, appended if it is not there. */
    method FindAddString(name: seq<byte>) returns (off: int, ghost more: seq<byte>)
      requires Layout() && NoNul(name)
      modifies this`bytes, this`sizeStrings, this`strings
      ensures Layout() && |bytes| == old(|bytes|) && strings == old(strings) + more
      ensures Room() == old(Room()) - |more| && |more| <= |name| + 1 && (off < 0 ==> Room() < |name| + 1)
      ensures off >= 0 ==> NameOk(strings, off) && StringAt(strings, off) == name
      ensures off < 0 ==> off == ERR_NOSPACE && more == []
    {
      more := [];
      off := FindString(Strings(), name);
      if off >= 0 {
        HeldString(strings, off, name);
        return;
      }
      off, more := AppendString(name);
    }

    /** _fdt_splice_string and the copy of the name. */
    method AppendString(name: seq<byte>) returns (off: int, ghost more: seq<byte>)
      requires Layout() && NoNul(name)
      modifies this`bytes, this`sizeStrings, this`strings
      ensures Layout() && |bytes| == old(|bytes|) && strings == old(strings) + more
      ensures Room() == old(Room()) - |more| && |more| <= |name| + 1 && (off < 0 ==> Room() < |name| + 1)
      ensures off >= 0 ==> NameOk(strings, off) && StringAt(strings, off) == name
      ensures off < 0 ==> off == ERR_NOSPACE && more == []
    {
      more := [];
      var end := offStrings + sizeStrings;
      off := Splice(end, 0, |name| + 1, end + |name| + 1, end, 0);
      if off != 0 { return; }
      NothingMoved(old(bytes), bytes, end + |name| + 1, end);
      more := name + [0];
      AppendedInOrder(bytes, offStruct, sizeStruct, offStrings, sizeStrings, head, structure, strings, more, end,
        sizeStrings + |name| + 1);
      bytes := Patched(bytes, end, name + [0]);
      off := sizeStrings;
      sizeStrings := sizeStrings + |name| + 1;
      AppendedString(strings, name, more, off);
      strings := strings + more;
    }

    /** The bytes of a property at offset r are rewritten with a new value. */
    method Rewrite(r: int, value: seq<byte>, ghost item: Item) returns (err: int, ghost pad: seq<byte>)
      requires Layout() && |value| < LENGTHS && PropHere(structure, r, item)
      modifies this`bytes, this`sizeStruct, this`offStrings, this`structure
      ensures Layout() && |bytes| == old(|bytes|)
      ensures err != 0 ==> old(Room()) < Align4(|value|)
      ensures err == 0 || (err == ERR_NOSPACE && structure == old(structure))
      ensures err == 0 ==>
        PropWritten(old(structure), r, r + 12 + |item.value| + |item.pad|, structure, item.nameoff, value, pad)
    {
      ghost var s := structure;
      pad := [];
      PropLength(s, r, item);
      var oldlen := WordAt(Struct(), r + 4);
      err := ResizeProperty(r, oldlen, |value|, item);
      if err != 0 { return; }
      ghost var t := structure;
      Put(r + 12, value);
      pad := Rewritten(s, r, item, value, t, structure);
    }

    /** The tag, name and length words of a new property. */
    method PutHeader(q: int, nameoff: int, len: int, ghost s: seq<byte>, ghost c: int)
      requires Layout() && 0 <= len < LENGTHS && 0 <= nameoff < WORDS && 0 <= q && q + 12 <= c <= |structure|
      requires Around(s, q, q, structure, c)
      modifies this`bytes, this`structure
      ensures Layout() && |bytes| == old(|bytes|) && |structure| == old(|structure|)
      ensures Around(s, q, q, structure, c) && HeaderHeld(structure, q, len, nameoff)
    {
      ghost var t := structure;
      Put(q, Word(PROP));
      ghost var t1 := structure;
      Put(q + 8, Word(nameoff));
      ghost var t2 := structure;
      Put(q + 4, Word(len));
      HeaderWritten(s, q, nameoff, len, c, t, t1, t2, structure);
    }

    /** _fdt_add_property and the copy of the value: the bytes of a new property at offset q. */
    method WriteNew(q: int, nameoff: int, value: seq<byte>) returns (err: int, ghost pad: seq<byte>)
      requires Layout() && |value| < LENGTHS && 0 <= nameoff < WORDS && 0 <= q <= |structure|
      modifies this`bytes, this`sizeStruct, this`offStrings, this`structure
      ensures Layout() && |bytes| == old(|bytes|)
      ensures err != 0 <==> old(Room()) < 12 + Align4(|value|)
      ensures err == 0 || (err == ERR_NOSPACE && structure == old(structure))
      ensures err == 0 ==> PropWritten(old(structure), q, q, structure, nameoff, value, pad)
    {
      ghost var s := structure;
      var proplen := 12 + Align4(|value|);
      pad := [];
      err := SpliceStruct(q, 0, proplen);
      if err != 0 { return; }
      ghost var c := q + proplen;
      SplicedLength(s, q, 0, proplen, structure);
      SplicedAround(s, q, q, 0, proplen, structure, q, c);
      PutHeader(q, nameoff, |value|, s, c);
      ghost var t := structure;
      Put(q + 12, value);
      pad := ValueWritten(s, q, q, t, c, nameoff, value, structure);
    }

    /** The offset of a name in the strings block, which may grow for it. */
    method NameOffset(name: seq<byte>) returns (off: int)
      requires Valid() && NoNul(name)
      modifies this`bytes, this`sizeStrings, this`strings
      ensures Valid() && |bytes| == old(|bytes|) && structure == old(structure)
      ensures Room() >= old(Room()) - |name| - 1 && (off < 0 ==> old(Room()) < |name| + 1)
      ensures off >= 0 ==> off < WORDS && NameOk(strings, off) && StringAt(strings, off) == name
      ensures off < 0 ==> off == ERR_NOSPACE
    {
      ghost var before := strings;
      ghost var more;
      off, more := FindAddString(name);
      FinishStrings(structure, before, more, tree, meaning);
    }

    /** _fdt_add_property: a property that the node does not have, with its name in the strings block. */
    method AddProperty(off: int, name: seq<byte>, value: seq<byte>, ghost p: seq<nat>) returns (err: int)
      requires Valid() && Names(off, p) && NoNul(name) && |value| < LENGTHS
      requires CheckNode(structure, off) >= 0 ==> IsMissing(meaning, Place(tree, p), name)
      modifies this`bytes, this`sizeStruct, this`offStrings, this`sizeStrings, this`structure, this`strings, this`tree,
        this`meaning
      ensures Valid() && |bytes| == old(|bytes|)
      ensures err == ERR_NOSPACE ==> old(Room()) < |name| + 1 + 12 + Align4(|value|)
      ensures CheckNode(old(structure), off) < 0 <==> err == ERR_BADOFFSET
      ensures err == 0
        || ((err == ERR_NOSPACE || err == ERR_BADOFFSET) && meaning == old(meaning) && structure == old(structure))
      ensures err == 0 ==> IsPut(old(meaning), Place(old(tree), p), name, value, meaning)
      ensures err == 0 ==> IsAppended(old(meaning), Place(old(tree), p), name, value, meaning)
    {
      var next := CheckNodeOffset(Struct(), off);
      if next < 0 { return ERR_BADOFFSET; }
      CheckedWithin(structure, strings, tree, meaning, p, off);
      var nameoff := NameOffset(name);
      if nameoff < 0 { return nameoff; }
      err := AddNamed(off, next, nameoff, name, value, p);
    }

    /** The rest of _fdt_add_property, with the name in the strings block. */
    method AddNamed(off: int, next: int, nameoff: int, ghost name: seq<byte>, value: seq<byte>, ghost p: seq<nat>)
      returns (err: int)
      requires Valid() && Names(off, p) && |value| < LENGTHS && next == CheckNode(structure, off)
      requires 0 <= next <= |structure|
      requires 0 <= nameoff < WORDS && NameOk(strings, nameoff) && StringAt(strings, nameoff) == name
      requires IsMissing(meaning, Place(tree, p), name)
      modifies this`bytes, this`sizeStruct, this`offStrings, this`structure, this`tree, this`meaning
      ensures Valid() && |bytes| == old(|bytes|)
      ensures err != 0 ==> old(Room()) < 12 + Align4(|value|)
      ensures err == 0 || (err == ERR_NOSPACE && meaning == old(meaning) && structure == old(structure))
      ensures err == 0 ==> IsPut(old(meaning), Place(old(tree), p), name, value, meaning)
      ensures err == 0 ==> IsAppended(old(meaning), Place(old(tree), p), name, value, meaning)
    {
      ghost var s, pad := structure, [];
      err, pad := WriteNew(next, nameoff, value);
      if err == 0 {
        tree, meaning := FinishAdd(s, strings, tree, meaning, p, off, name, PropItem(nameoff, value, pad), structure);
      }
    }

    /** fdt_getprop: the value of the first property of the name. */
    method GetProp(off: int, name: seq<byte>, ghost p: seq<nat>) returns (r: int, value: seq<byte>)
      requires Valid() && Names(off, p)
      ensures CheckNode(structure, off) < 0 ==> r == ERR_BADOFFSET
      ensures CheckNode(structure, off) >= 0 && r < 0 ==> r == ERR_NOTFOUND && IsMissing(meaning, Place(tree, p), name)
      ensures r >= 0 ==>
        IsViewPath(meaning, Place(tree, p)) && HasValue(ViewAt(meaning, Place(tree, p)).props, name, value)
    {
      ghost var k, item;
      value := [];
      r, k, item := FindIn(Struct(), Strings(), off, name, tree, meaning, p);
      if r < 0 { return; }
      PropLength(structure, r, item);
      FoundValue(structure, strings, tree, meaning, p, name, k, item, r);
      var len := WordAt(Struct(), r + 4);
      value := Struct()[r + 12..r + 12 + len];
      ValueHere(structure, r, item);
    }

    /** fdt_setprop on a property found at offset r. */
    method SetFound(r: int, value: seq<byte>, ghost p: seq<nat>, ghost name: seq<byte>, ghost k: nat, ghost item: Item)
      returns (err: int)
      requires Valid() && |value| < LENGTHS && IsFound(structure, strings, tree, p, name, k, item, r)
      modifies this`bytes, this`sizeStruct, this`offStrings, this`structure, this`tree, this`meaning
      ensures Valid() && |bytes| == old(|bytes|)
      ensures err != 0 ==> old(Room()) < Align4(|value|)
      ensures err == 0 ==> IsPut(old(meaning), Place(old(tree), p), name, value, meaning)
      ensures err == 0 || (err == ERR_NOSPACE && meaning == old(meaning) && structure == old(structure))
    {
      ghost var s, pad := structure, [];
      err, pad := Rewrite(r, value, item);
      if err == 0 {
        tree, meaning := FinishRewrite(s, strings, tree, meaning, p, name, k, item, r,
          r + 12 + |item.value| + |item.pad|,
                                       PropItem(item.nameoff, value, pad), structure);
      }
    }

    /** fdt_setprop */
    method SetProp(off: int, name: seq<byte>, value: seq<byte>, ghost p: seq<nat>) returns (err: int)
      requires Valid() && Names(off, p) && NoNul(name) && |value| < LENGTHS
      modifies this`bytes, this`sizeStruct, this`offStrings, this`sizeStrings, this`structure, this`strings, this`tree,
        this`meaning
      ensures Valid() && |bytes| == old(|bytes|)
      ensures err == ERR_NOSPACE ==> old(Room()) < |name| + 1 + 12 + Align4(|value|)
      ensures err == 0 ==> IsPut(old(meaning), Place(old(tree), p), name, value, meaning)
      ensures err == 0
        || ((err == ERR_NOSPACE || err == ERR_BADOFFSET) && meaning == old(meaning) && structure == old(structure))
      ensures CheckNode(old(structure), off) < 0 <==> err == ERR_BADOFFSET
    {
      ghost var k, item;
      var r;
      r, k, item := FindIn(Struct(), Strings(), off, name, tree, meaning, p);
      if r == ERR_NOTFOUND {
        err := AddProperty(off, name, value, p);
      } else if r < 0 {
        err := r;
      } else {
        err := SetFound(r, value, p, name, k, item);
      }
    }

    /** fdt_appendprop on a property found at offset r. */
    method AppendFound(r: int, value: seq<byte>, ghost p: seq<nat>, ghost name: seq<byte>, ghost k: nat,
                       ghost item: Item) returns (err: int)
      requires Valid() && IsFound(structure, strings, tree, p, name, k, item, r) && |item.value| + |value| < LENGTHS
      modifies this`bytes, this`sizeStruct, this`offStrings, this`structure, this`tree, this`meaning
      ensures Valid() && |bytes| == old(|bytes|)
      ensures err != 0 ==> old(Room()) < Align4(|value|)
      ensures err == 0 ==> IsAppended(old(meaning), Place(old(tree), p), name, value, meaning)
      ensures err == 0 || (err == ERR_NOSPACE && meaning == old(meaning) && structure == old(structure))
    {
      ghost var s, pad := structure, [];
      err, pad := Extend(r, value, item);
      if err == 0 {
        tree, meaning := FinishAppend(s, strings, tree, meaning, p, name, k, item, r, value, pad, structure);
      }
    }

    /** The bytes of a property at offset r get more value at their end. */
    method Extend(r: int, value: seq<byte>, ghost item: Item) returns (err: int, ghost pad: seq<byte>)
      requires Layout() && PropHere(structure, r, item) && |item.value| + |value| < LENGTHS
      modifies this`bytes, this`sizeStruct, this`offStrings, this`structure
      ensures Layout() && |bytes| == old(|bytes|)
      ensures err != 0 ==> old(Room()) < Align4(|value|)
      ensures err == 0 || (err == ERR_NOSPACE && structure == old(structure))
      ensures err == 0 ==>
        PropWritten(old(structure), r, r + 12 + |item.value| + |item.pad|, structure, item.nameoff, item.value + value,
        pad)
    {
      ghost var s := structure;
      pad := [];
      PropLength(s, r, item);
      var oldlen := WordAt(Struct(), r + 4);
      var newlen := oldlen + |value|;
      AlignGrowth(oldlen, |value|, newlen);
      err := ResizeProperty(r, oldlen, newlen, item);
      if err != 0 { return; }
      ghost var t := structure;
      var at := r + 12 + oldlen;
      Put(at, value);
      pad := Extended(s, r, item, value, newlen, t, at, structure);
    }

    /** fdt_appendprop */
    method AppendProp(off: int, name: seq<byte>, value: seq<byte>, ghost p: seq<nat>) returns (err: int)
      requires Valid() && Names(off, p) && NoNul(name) && |value| < 0x8000_0000
      modifies this`bytes, this`sizeStruct, this`offStrings, this`sizeStrings, this`structure, this`strings, this`tree,
        this`meaning
      ensures Valid() && |bytes| == old(|bytes|)
      ensures err == ERR_NOSPACE ==> old(Room()) < |name| + 1 + 12 + Align4(|value|)
      ensures CheckNode(old(structure), off) < 0 <==> err == ERR_BADOFFSET
      ensures err == 0 ==> IsAppended(old(meaning), Place(old(tree), p), name, value, meaning)
      ensures err == 0
        || ((err == ERR_NOSPACE || err == ERR_BADOFFSET) && meaning == old(meaning) && structure == old(structure))
    {
      ghost var k, item;
      var r;
      r, k, item := FindIn(Struct(), Strings(), off, name, tree, meaning, p);
      if r >= 0 {
        PropLength(structure, r, item);
        err := AppendFound(r, value, p, name, k, item);
      } else if r == ERR_NOTFOUND {
        err := AddProperty(off, name, value, p);
      } else {
        err := ERR_BADOFFSET;
      }
    }

    /** Bytes of the structure block are taken out. */
    method Close(q: int, len: int) returns (err: int)
      requires Layout() && 0 <= q && 0 <= len && q + len <= |structure|
      modifies this`bytes, this`sizeStruct, this`offStrings, this`structure
      ensures Layout() && |bytes| == old(|bytes|)
      ensures err == 0 && Exchanged(old(structure), q, q + len, [], structure)
    {
      ghost var s := structure;
      err := SpliceStruct(q, len, 0);
      SplicedAround(s, q, q, len, 0, structure, q + len, q);
      SplicedLength(s, q, len, 0, structure);
      IsHeld(structure, q, []);
      AroundExchanged(s, q, q + len, structure, q, []);
    }

    /** fdt_delprop */
    method DelProp(off: int, name: seq<byte>, ghost p: seq<nat>) returns (err: int)
      requires Valid() && Names(off, p)
      modifies this`bytes, this`sizeStruct, this`offStrings, this`structure, this`tree, this`meaning
      ensures Valid() && |bytes| == old(|bytes|)
      ensures err == 0 ==> IsDropped(old(meaning), Place(old(tree), p), name, meaning)
      ensures err != 0 ==> meaning == old(meaning) && structure == old(structure)
      ensures err == ERR_NOTFOUND ==> IsMissing(meaning, Place(tree, p), name)
      ensures err == 0 || err == if CheckNode(old(structure), off) < 0 then ERR_BADOFFSET else ERR_NOTFOUND
    {
      ghost var k, item;
      ghost var s := structure;
      var r;
      r, k, item := FindIn(Struct(), Strings(), off, name, tree, meaning, p);
      if r < 0 { return r; }
      PropLength(structure, r, item);
      var len := WordAt(Struct(), r + 4);
      err := Close(r, 12 + Align4(len));
      tree, meaning := FinishDrop(s, strings, tree, meaning, p, name, k, item, r, [], structure);
    }

    /** _fdt_nop_region */
    method NopRegion(q: int, len: int, ghost words: nat, ghost end: int)
      requires Layout() && 0 <= q && 0 <= len && 4 * words - 4 < len <= 4 * words && end == q + 4 * words <= |structure|
      modifies this`bytes, this`structure
      ensures Layout() && |bytes| == old(|bytes|) && |structure| == old(|structure|)
      ensures Exchanged(old(structure), q, end, EncodeAll(Nops(words)), structure)
    {
      ghost var s := structure;
      ghost var n := 0;
      var at := q;
      NopsStart(s, q);
      while at < q + len
        invariant Layout() && |bytes| == old(|bytes|) && |structure| == old(|structure|) && 0 <= n <= words
        invariant at == q + 4 * n
        invariant Exchanged(s, q, at, EncodeAll(Nops(n)), structure)
      {
        ghost var t := structure;
        Put(at, Word(NOP));
        NopsStep(s, q, n, at, at + 4, t, structure);
        at := at + 4;
        n := n + 1;
      }
      assert n == words && at == end;
    }

    /** fdt_nop_property: the property is overwritten in place, and is gone from the meaning as if deleted. */
    method NopProperty(off: int, name: seq<byte>, ghost p: seq<nat>) returns (err: int)
      requires Valid() && Names(off, p)
      modifies this`bytes, this`structure, this`tree, this`meaning
      ensures Valid() && |bytes| == old(|bytes|) && |structure| == old(|structure|)
      ensures err == 0 ==> IsDropped(old(meaning), Place(old(tree), p), name, meaning)
      ensures err != 0 ==> meaning == old(meaning) && structure == old(structure)
      ensures err == ERR_NOTFOUND ==> IsMissing(meaning, Place(tree, p), name)
      ensures err == 0 || err == if CheckNode(old(structure), off) < 0 then ERR_BADOFFSET else ERR_NOTFOUND
    {
      ghost var k, item;
      var r;
      r, k, item := FindIn(Struct(), Strings(), off, name, tree, meaning, p);
      if r < 0 { return r; }
      NopFound(r, p, name, k, item);
      err := 0;
    }

    method NopFound(r: int, ghost p: seq<nat>, ghost name: seq<byte>, ghost k: nat, ghost item: Item)
      requires Valid() && IsFound(structure, strings, tree, p, name, k, item, r)
      modifies this`bytes, this`structure, this`tree, this`meaning
      ensures Valid() && |bytes| == old(|bytes|) && |structure| == old(|structure|)
      ensures IsDropped(old(meaning), Place(old(tree), p), name, meaning)
    {
      ghost var s := structure;
      PropLength(structure, r, item);
      var len := WordAt(Struct(), r + 4);
      ghost var n := 3 + (len + 3) / 4;
      NopRegion(r, 12 + len, n, r + 12 + |item.value| + |item.pad|);
      NopItemsFlatten(n);
      tree, meaning := FinishDrop(s, strings, tree, meaning, p, name, k, item, r, NopItems(n), structure);
    }

    /** The bytes of an empty node are put in at offset q. */
    method WriteNode(q: int, name: seq<byte>) returns (err: int, ghost m: Node)
      requires Layout() && 0 <= q <= |structure| && NoNul(name)
      modifies this`bytes, this`sizeStruct, this`offStrings, this`structure
      ensures Layout() && |bytes| == old(|bytes|)
      ensures err != 0 <==> old(Room()) < 8 + Align4(|name| + 1)
      ensures err == 0 || (err == ERR_NOSPACE && structure == old(structure))
      ensures err == 0 ==>
        m.name == name && m.items == [] && AllOk(Flatten(m))
        && Exchanged(old(structure), q, q, EncodeAll(Flatten(m)), structure)
    {
      ghost var s := structure;
      var n := Align4(|name| + 1);
      m := Node(name, Zeros(n - |name| - 1), []);
      err := SpliceStruct(q, 0, 4 + n + 4);
      if err != 0 { return; }
      ghost var c := q + 4 + n + 4;
      SplicedLength(s, q, 0, 4 + n + 4, structure);
      SplicedAround(s, q, q, 0, 4 + n + 4, structure, q, c);
      PutHead(q, n, name, s, c);
      ghost var t := structure;
      var at := q + 4 + n;
      Put(at, Word(END_NODE));
      NodeWritten(s, q, n, name, c, at, t, structure);
    }

    method PutHead(q: int, n: int, name: seq<byte>, ghost s: seq<byte>, ghost c: int)
      requires Layout() && NoNul(name) && 0 <= q && n == Align4(|name| + 1)
      requires c == q + 4 + n + 4 <= |structure| && Around(s, q, q, structure, c)
      modifies this`bytes, this`structure
      ensures Layout() && |bytes| == old(|bytes|) && |structure| == old(|structure|)
      ensures TokenOk(Begin(name, Zeros(n - |name| - 1)))
      ensures Around(s, q, q, structure, c) && Holds(structure, q, Encode(Begin(name, Zeros(n - |name| - 1))))
    {
      ghost var t := structure;
      Put(q, Word(BEGIN_NODE));
      ghost var t1 := structure;
      Put(q + 4, Zeros(n));
      ghost var t2 := structure;
      Put(q + 4, name);
      HeadWritten(s, q, n, name, c, t, t1, t2, structure);
    }

    /** fdt_add_subnode_namelen. The parent offset -1 is taken for the answer that there is no such subnode: the bytes
        of the new node then go in front of the structure block, and the result is an error all the same. */
    method AddSubnode(off: int, name: seq<byte>, ghost p: seq<nat>) returns (r: int, ghost k: nat)
      requires Valid() && Names(off, p) && NoNul(name)
      modifies this`bytes, this`sizeStruct, this`offStrings, this`structure, this`head, this`tree, this`meaning
      ensures Layout() && |bytes| == old(|bytes|)
      ensures off != -1 ==> Valid() && head == old(head)
      ensures off != -1 && r >= 0 ==>
        IsGrown(old(meaning), Place(old(tree), p), name, meaning) && IsNodeNamed(tree, p + [k], r, name)
      ensures off != -1 && r < 0 ==> meaning == old(meaning) && structure == old(structure)
      ensures CheckNode(old(structure), off) >= 0 ==> AddResult(old(meaning), Place(old(tree), p), name, r, old(Room()))
      ensures CheckNode(old(structure), off) < 0 && off != -1 ==> r == if off < 0 then off else ERR_BADOFFSET
      ensures off == -1 && old(Room()) < 8 + Align4(|name| + 1) ==>
        r == ERR_NOSPACE && bytes == old(bytes) && structure == old(structure)
      ensures off == -1 && old(Room()) >= 8 + Align4(|name| + 1) ==>
        r == ERR_TRUNCATED && PutAhead(old(bytes), old(offStrings), sizeStrings, offStruct, name, bytes, offStrings)
    {
      k := 0;
      if off == -1 {
        r := AddAhead(off, name, p);
      } else {
        r, k := AddBelow(off, name, p);
      }
    }

    /** fdt_add_subnode_namelen for a parent offset other than -1. */
    method AddBelow(off: int, name: seq<byte>, ghost p: seq<nat>) returns (r: int, ghost k: nat)
      requires Valid() && Names(off, p) && NoNul(name) && off != -1
      modifies this`bytes, this`sizeStruct, this`offStrings, this`structure, this`tree, this`meaning
      ensures Valid() && |bytes| == old(|bytes|)
      ensures r >= 0 ==>
        IsGrown(old(meaning), Place(old(tree), p), name, meaning) && IsNodeNamed(tree, p + [k], r, name)
      ensures r < 0 ==> meaning == old(meaning) && structure == old(structure)
      ensures CheckNode(old(structure), off) >= 0 ==> AddResult(old(meaning), Place(old(tree), p), name, r, old(Room()))
      ensures CheckNode(old(structure), off) < 0 ==> r == if off < 0 then off else ERR_BADOFFSET
    {
      k := 0;
      r := FindSubnode(Struct(), Strings(), off, name, tree, meaning, p);
      if r >= 0 {
        r := ERR_EXISTS;
      } else if r == ERR_NOTFOUND {
        r, k := PlaceNode(off, name, p);
      }
    }

    /** fdt_add_subnode_namelen for the parent offset -1. */
    method AddAhead(off: int, name: seq<byte>, ghost p: seq<nat>) returns (r: int)
      requires Valid() && Names(off, p) && NoNul(name) && off == -1
      modifies this`bytes, this`sizeStruct, this`offStrings, this`structure, this`head
      ensures Layout() && |bytes| == old(|bytes|)
      ensures r == (if old(Room()) < 8 + Align4(|name| + 1) then ERR_NOSPACE else ERR_TRUNCATED)
      ensures r == ERR_NOSPACE ==> bytes == old(bytes) && structure == old(structure)
      ensures r == ERR_TRUNCATED ==>
        PutAhead(old(bytes), old(offStrings), sizeStrings, offStruct, name, bytes, offStrings)
    {
      r := FindSubnode(Struct(), Strings(), off, name, tree, meaning, p);
      assert r == ERR_NOTFOUND;
      if r == ERR_NOTFOUND { r := PlaceAhead(off, name); }
    }

    /** The rest of fdt_add_subnode_namelen, after the answer that a node has no such subnode. */
    method PlaceNode(off: int, name: seq<byte>, ghost p: seq<nat>) returns (r: int, ghost k: nat)
      requires Valid() && Names(off, p) && NoNul(name) && CheckNode(structure, off) >= 0
      modifies this`bytes, this`sizeStruct, this`offStrings, this`structure, this`tree, this`meaning
      ensures Valid() && |bytes| == old(|bytes|) && (r >= 0 || r == ERR_NOSPACE)
      ensures r >= 0 ==>
        IsGrown(old(meaning), Place(old(tree), p), name, meaning) && IsNodeNamed(tree, p + [k], r, name)
      ensures r < 0 <==> old(Room()) < 8 + Align4(|name| + 1)
      ensures r < 0 ==> meaning == old(meaning) && structure == old(structure)
    {
      GapEnds(Struct(), Strings(), off, tree, meaning, p);
      r := SkipProperties(Struct(), off);
      k := GapIsFound(Struct(), Strings(), off, tree, meaning, p, r);
      var err := FillIn(r, name, p, k);
      if err != 0 { r := err; }
    }

    /** And after the same answer for the offset -1. */
    method PlaceAhead(off: int, name: seq<byte>) returns (r: int)
      requires Layout() && off == -1 && NoNul(name)
      modifies this`bytes, this`sizeStruct, this`offStrings, this`structure, this`head
      ensures Layout() && |bytes| == old(|bytes|)
      ensures r == (if old(Room()) < 8 + Align4(|name| + 1) then ERR_NOSPACE else ERR_TRUNCATED)
      ensures r == ERR_NOSPACE ==> bytes == old(bytes) && structure == old(structure)
      ensures r == ERR_TRUNCATED ==>
        PutAhead(old(bytes), old(offStrings), sizeStrings, offStruct, name, bytes, offStrings)
    {
      NothingAhead(Struct(), off);
      r := SkipProperties(Struct(), off);
      var err := WriteAhead(r, name);
      if err != 0 { r := err; }
    }

    /** The bytes of an empty node are put in at a negative offset: the last bytes before the structure block move into
        it. */
    method WriteAhead(q: int, name: seq<byte>) returns (err: int)
      requires Layout() && q == ERR_TRUNCATED && NoNul(name)
      modifies this`bytes, this`sizeStruct, this`offStrings, this`structure, this`head
      ensures Layout() && |bytes| == old(|bytes|)
      ensures err == (if old(Room()) < 8 + Align4(|name| + 1) then ERR_NOSPACE else 0)
      ensures err != 0 ==> bytes == old(bytes) && structure == old(structure)
      ensures err == 0 ==> PutAhead(old(bytes), old(offStrings), sizeStrings, offStruct, name, bytes, offStrings)
    {
      var n := Align4(|name| + 1);
      var len, a, end := 4 + n + 4, offStruct + q, offStrings + sizeStrings;
      ghost var was, to, size := bytes, a + len, end - a;
      err := Splice(a, 0, len, to, a, size);
      if err != 0 { return; }
      ghost var at, end' := offStrings + len, end + len;
      var u := PutNode(bytes, a, n, name, was, end, len, to, size, offStruct, end', offStrings, at, sizeStrings);
      Grow(u, len, at);
    }

    /** The structure block takes in the bytes before it, and the strings block follows. */
    method Grow(u: seq<byte>, len: int, ghost at: int)
      requires HEAD <= offStruct && 0 <= sizeStruct && offStruct + sizeStruct <= offStrings
      requires 0 <= sizeStrings && 0 <= len
      requires offStrings + sizeStrings + len <= |u| < 0x8000_0000 && at == offStrings + len
      requires u[at..at + sizeStrings] == strings
      modifies this`bytes, this`sizeStruct, this`offStrings, this`structure, this`head
      ensures Layout() && bytes == u && offStrings == at && sizeStruct == old(sizeStruct) + len
    {
      bytes := u;
      sizeStruct := sizeStruct + len;
      offStrings := offStrings + len;
      structure, head := bytes[offStruct..offStruct + sizeStruct], bytes[..offStruct];
    }

    method FillIn(r: int, name: seq<byte>, ghost p: seq<nat>, ghost k: nat) returns (err: int)
      requires Valid() && NoNul(name) && IsGap(structure, strings, tree, meaning, p, k, r)
      modifies this`bytes, this`sizeStruct, this`offStrings, this`structure, this`tree, this`meaning
      ensures Valid() && |bytes| == old(|bytes|)
      ensures err != 0 <==> old(Room()) < 8 + Align4(|name| + 1)
      ensures err == 0 ==>
        IsGrown(old(meaning), Place(old(tree), p), name, meaning) && IsNodeNamed(tree, p + [k], r, name)
      ensures err == 0 || (err == ERR_NOSPACE && meaning == old(meaning) && structure == old(structure))
    {
      ghost var s := structure;
      ghost var m;
      err, m := WriteNode(r, name);
      if err == 0 {
        tree, meaning := FillGap(s, strings, tree, meaning, p, k, r, m, structure);
      }
    }

    /** fdt_del_node; without the root no tree is left, only what stood behind it. */
    method DelNode(off: int, ghost q: seq<nat>) returns (err: int)
      requires Valid() && Names(off, q)
      modifies this`bytes, this`sizeStruct, this`offStrings, this`structure, this`tree, this`meaning
      ensures Layout() && |bytes| == old(|bytes|)
      ensures CheckNode(old(structure), off) < 0 ==>
        err < 0 && Valid() && meaning == old(meaning) && structure == old(structure)
      ensures CheckNode(old(structure), off) >= 0 ==> err == 0
      ensures CheckNode(old(structure), off) >= 0 && q != [] ==>
        Valid() && IsGone(old(meaning), Place(old(tree), q), meaning)
      ensures CheckNode(old(structure), off) >= 0 && q == [] ==> RootReplaced(old(structure), old(tree), [], structure)
    {
      var end := FindEnd(Struct(), Strings(), off, tree, meaning, q);
      if end < 0 { return end; }
      err := CutOut(off, end, q);
    }

    method CutOut(off: int, end: int, ghost q: seq<nat>) returns (err: int)
      requires Valid() && Names(off, q) && IsExtent(structure, tree, q, off, end)
      modifies this`bytes, this`sizeStruct, this`offStrings, this`structure, this`tree, this`meaning
      ensures Layout() && |bytes| == old(|bytes|) && err == 0
      ensures q != [] ==> Valid() && IsGone(old(meaning), Place(old(tree), q), meaning)
      ensures q == [] ==> RootReplaced(old(structure), old(tree), [], structure)
    {
      ghost var s := structure;
      err := Close(off, end - off);
      if q == [] {
        RootExtent(s, tree, off, end);
        EndBehindRoot(s, strings, tree, meaning, [], structure, end);
      } else {
        tree, meaning := ClearExtent(s, strings, tree, meaning, q, off, end, [], structure);
      }
    }

    /** fdt_nop_node: gone from the meaning as if deleted; in place of the root, no-ops are left. */
    method NopNode(off: int, ghost q: seq<nat>) returns (err: int)
      requires Valid() && Names(off, q)
      modifies this`bytes, this`structure, this`tree, this`meaning
      ensures Layout() && |bytes| == old(|bytes|) && |structure| == old(|structure|)
      ensures CheckNode(old(structure), off) < 0 ==>
        err < 0 && Valid() && meaning == old(meaning) && structure == old(structure)
      ensures CheckNode(old(structure), off) >= 0 ==> err == 0
      ensures CheckNode(old(structure), off) >= 0 && q != [] ==>
        Valid() && IsGone(old(meaning), Place(old(tree), q), meaning)
      ensures CheckNode(old(structure), off) >= 0 && q == [] ==>
        exists n: nat :: RootReplaced(old(structure), old(tree), EncodeAll(Nops(n)), structure)
    {
      var end := FindEnd(Struct(), Strings(), off, tree, meaning, q);
      if end < 0 { return end; }
      BlankOut(off, end, q);
      err := 0;
    }

    method BlankOut(off: int, end: int, ghost q: seq<nat>)
      requires Valid() && Names(off, q) && IsExtent(structure, tree, q, off, end)
      modifies this`bytes, this`structure, this`tree, this`meaning
      ensures Layout() && |bytes| == old(|bytes|) && |structure| == old(|structure|)
      ensures q != [] ==> Valid() && IsGone(old(meaning), Place(old(tree), q), meaning)
      ensures q == [] ==> exists n: nat :: RootReplaced(old(structure), old(tree), EncodeAll(Nops(n)), structure)
    {
      ghost var s := structure;
      ghost var n := NopExtent(off, end);
      if q == [] {
        RootExtent(s, tree, off, end);
        NopItemsFlatten(n);
        EndBehindRoot(s, strings, tree, meaning, EncodeAll(Nops(n)), structure, end);
      } else {
        tree, meaning := ClearExtent(s, strings, tree, meaning, q, off, end, NopItems(n), structure);
      }
    }

    method NopExtent(off: int, end: int) returns (ghost n: nat)
      requires Layout() && 0 <= off <= end <= |structure| && (end - off) % 4 == 0
      modifies this`bytes, this`structure
      ensures Layout() && |bytes| == old(|bytes|) && |structure| == old(|structure|)
      ensures AllNops(NopItems(n)) && AllOk(FlattenItems(NopItems(n)))
      ensures Exchanged(old(structure), off, end, EncodeAll(FlattenItems(NopItems(n))), structure)
    {
      n := (end - off) / 4;
      NopRegion(off, end - off, n, end);
      NopItemsFlatten(n);
    }

    /** fdt_set_name */
    method SetName(off: int, name: seq<byte>, ghost p: seq<nat>) returns (err: int)
      requires Valid() && Names(off, p) && NoNul(name)
      modifies this`bytes, this`sizeStruct, this`offStrings, this`structure, this`tree, this`meaning
      ensures Valid() && |bytes| == old(|bytes|)
      ensures err == ERR_NOSPACE ==> old(Room()) < Align4(|name| + 1)
      ensures err == 0 ==> IsRenamed(old(meaning), Place(old(tree), p), name, meaning)
      ensures err == 0 || (meaning == old(meaning) && structure == old(structure))
      ensures err == 0 || err == if CheckNode(old(structure), off) < 0 then ERR_BADOFFSET else ERR_NOSPACE
    {
      var e, oldlen := FindName(Struct(), Strings(), off, tree, meaning, p);
      if e < 0 { return e; }
      err := Rename(off, oldlen, name, p);
    }

    method Rename(off: int, oldlen: int, name: seq<byte>, ghost p: seq<nat>) returns (err: int)
      requires Valid() && Names(off, p) && NoNul(name) && IsBegin(structure, tree, p, off, oldlen)
      modifies this`bytes, this`sizeStruct, this`offStrings, this`structure, this`tree, this`meaning
      ensures Valid() && |bytes| == old(|bytes|)
      ensures err != 0 <==> old(Room()) + Align4(oldlen + 1) < Align4(|name| + 1)
      ensures err == 0 ==> IsRenamed(old(meaning), Place(old(tree), p), name, meaning)
      ensures err == 0 || (err == ERR_NOSPACE && meaning == old(meaning) && structure == old(structure))
    {
      ghost var s, pad := structure, [];
      err, pad := WriteName(off, oldlen, name);
      if err == 0 {
        tree, meaning := GiveName(s, strings, tree, meaning, p, off, oldlen, name, pad, structure);
      }
    }

    /** The bytes of a name are exchanged for those of another. */
    method WriteName(off: int, oldlen: int, name: seq<byte>) returns (err: int, ghost pad: seq<byte>)
      requires Layout() && 0 <= off && 0 <= oldlen && off + 4 + Align4(oldlen + 1) <= |structure|
      requires NoNul(name) && Holds(structure, off, Word(BEGIN_NODE))
      modifies this`bytes, this`sizeStruct, this`offStrings, this`structure
      ensures Layout() && |bytes| == old(|bytes|)
      ensures err != 0 <==> old(Room()) + Align4(oldlen + 1) < Align4(|name| + 1)
      ensures err == 0 || (err == ERR_NOSPACE && structure == old(structure))
      ensures err == 0 ==>
        TokenOk(Begin(name, pad))
          && Exchanged(old(structure), off, off + 4 + Align4(oldlen + 1), Encode(Begin(name, pad)), structure)
    {
      ghost var s := structure;
      pad := [];
      var a, b := Align4(oldlen + 1), Align4(|name| + 1);
      err := SpliceStruct(off + 4, a, b);
      if err != 0 { return; }
      ghost var t := structure;
      SplicedLength(s, off + 4, a, b, t);
      Put(off + 4, name + [0]);
      pad := NameWritten(s, off, a, b, name, t, structure, off + 4 + Align4(oldlen + 1));
    }
  }

  /** _fdt_find_string: the first place of a string with its NUL, or -1. */
  method FindString(table: seq<byte>, name: seq<byte>) returns (r: int)
    ensures r == -1 ==> forall i :: 0 <= i ==> !Holds(table, i, name + [0])
    ensures r != -1 ==> 0 <= r && Holds(table, r, name + [0]) && forall i :: 0 <= i < r ==> !Holds(table, i, name + [0])
  {
    var s := name + [0];
    r := 0;
    while r + |s| <= |table|
      invariant 0 <= r
      invariant forall i :: 0 <= i < r ==> !Holds(table, i, s)
    {
      if table[r..r + |s|] == s {
        IsHeld(table, r, s);
        return;
      }
      NotHeld(table, r, s);
      r := r + 1;
    }
    r := -1;
  }

  lemma AlignGrowth(a: int, b: int, c: int)
    requires c == a + b
    ensures Align4(c) <= Align4(a) + Align4(b)
  {
  }

  /** t is s with the bytes of the tree at its start exchanged for x. */
  ghost predicate RootReplaced(s: seq<byte>, root: Node, x: seq<byte>, t: seq<byte>) {
    AllOk(Flatten(root)) && Exchanged(s, 0, |EncodeAll(Flatten(root))|, x, t) && Holds(t, |x|, Word(END))
  }

  lemma EndBehindRoot(s: seq<byte>, strings: seq<byte>, root: Node, view: View, x: seq<byte>, t: seq<byte>, end: int)
    requires Holding(s, strings, root, view) && AllOk(Flatten(root)) && end == |EncodeAll(Flatten(root))|
    requires Exchanged(s, 0, end, x, t)
    ensures RootReplaced(s, root, x, t)
  {
    assert Opens(OfHolding);
    EndStands(s, strings, root);
    HeldIs(s, end, Word(END));
    assert t[|x|..|x| + 4] == s[end..end + 4];
    IsHeld(t, |x|, Word(END));
  }

  /** The word that is put in front is read as the size of a reserve map entry: the map has no end there any more. */
  lemma AheadIsSeen(b: seq<byte>, ot: int, st: int, offStruct: int, name: seq<byte>, u: seq<byte>, ot': int, end: int,
                    end': int)
    requires PutAhead(b, ot, st, offStruct, name, u, ot') && offStruct >= HEAD && end == ot + st && end' == ot' + st
    ensures end' == end + 8 + Align4(|name| + 1) && 0 <= end' <= |u| && offStruct - 4 <= end'
    ensures WordAt(u[..end'], offStruct - 8) == BEGIN_NODE
  {
    assert Opens(OfBytes);
    AheadWord(b[..end], offStruct - 8, NewBegin(name), u[..end']);
  }

  lemma AheadWord(s: seq<byte>, a: int, t: Token, v: seq<byte>)
    requires t.Begin? && TokenOk(t) && Exchanged(s, a, a, Encode(t) + Word(END_NODE), v)
    ensures |v| == |s| + 8 + Align4(|t.name| + 1) && a + 4 <= |v| && WordAt(v, a) == BEGIN_NODE
  {
    ExchangedHolds(s, a, Encode(t) + Word(END_NODE), v);
    HoldsParts(v, a, Encode(t), Word(END_NODE));
    HoldsParts(v, a, Word(BEGIN_NODE), t.name + [0] + t.pad);
    WordHeld(v, a, BEGIN_NODE);
  }

  lemma ExchangedHolds(s: seq<byte>, a: int, x: seq<byte>, t: seq<byte>)
    requires Exchanged(s, a, a, x, t)
    ensures Holds(t, a, x) && |t| == |s| + |x|
  {
    assert t[a..a + |x|] == x;
    IsHeld(t, a, x);
  }

  /** The answers for a node: an offset, no space only when a node of that name does not fit, and exists exactly when a
      child's name matches. */
  ghost predicate AddResult(view: View, q: seq<nat>, name: seq<byte>, r: int, room: int) {
    && IsViewPath(view, q) && (r >= 0 || r == ERR_NOSPACE || r == ERR_EXISTS)
    && (r == ERR_EXISTS <==> AnyMatch(ViewAt(view, q).children, name))
    && (r == ERR_NOSPACE <==> !AnyMatch(ViewAt(view, q).children, name) && room < 8 + Align4(|name| + 1))
  }

  /** Before the block there is no tag, and the answer that the block is truncated is taken for an offset. */
  lemma NothingAhead(s: seq<byte>, off: int)
    requires off == -1
    ensures PastProps(s, TagAt(s, off).next) == Some(ERR_TRUNCATED)
  {
  }

  /** The begin tag of a new node, with its name padded by zeros. */
  function NewBegin(name: seq<byte>): Token { Begin(name, Zeros(Align4(|name| + 1) - |name| - 1)) }

  lemma NewBeginOk(name: seq<byte>)
    requires NoNul(name)
    ensures TokenOk(NewBegin(name)) && |Encode(NewBegin(name))| == 4 + Align4(|name| + 1)
  {
  }

  /** The used part of u is that of b with an empty node put in eight bytes before the structure block. */
  ghost predicate PutAhead(b: seq<byte>, ot: int, st: int, offStruct: int, name: seq<byte>, u: seq<byte>, ot': int) {
    NodeAhead(b, ot + st, offStruct, name, u, ot' + st) == true
  }

  ghost predicate NodeAhead(b: seq<byte>, end: int, offStruct: int, name: seq<byte>, u: seq<byte>, end': int) {
    && 0 <= end <= |b| && 0 <= end' <= |u|
    && forall key: Key :: Opens(key) && key == OfBytes ==> IsPutAhead(b[..end], offStruct - 8, name, u[..end'])
  }

  ghost predicate IsPutAhead(s: seq<byte>, a: int, name: seq<byte>, t: seq<byte>) {
    NoNul(name) && TokenOk(NewBegin(name)) && Exchanged(s, a, a, Encode(NewBegin(name)) + Word(END_NODE), t)
  }

  /** The bytes of an empty node written at a place where there is room for them; the table behind it was moved
      along. */
  method PutNode(t: seq<byte>, a: int, n: int, name: seq<byte>, ghost b: seq<byte>, ghost end: int, ghost len: int,
                 ghost to: int, ghost size: int,
                 ghost os: int, ghost end': int, ghost ot: int, ghost at: int, ghost st: int)
    returns (u: seq<byte>)
    requires NoNul(name) && n == Align4(|name| + 1) && len == 4 + n + 4 && 0 <= a <= end && end + len <= |b|
    requires to == a + len && size == end - a && IsMoved(b, t, to, a, size) && os == a + 8 && end' == end + len
    requires a <= ot && 0 <= st && ot + st == end && at == ot + len
    ensures |u| == |b| && u[at..at + st] == b[ot..ot + st] && PutAhead(b, ot, st, os, name, u, at)
  {
    MovedLength(b, t, to, a, size);
    var t1 := Patched(t, a, Word(BEGIN_NODE));
    var t2 := Patched(t1, a + 4, Zeros(n));
    var t3 := Patched(t2, a + 4, name);
    u := Patched(t3, a + 4 + n, Word(END_NODE));
    Patch(t, a, Word(BEGIN_NODE));
    Patch(t1, a + 4, Zeros(n));
    Patch(t2, a + 4, name);
    Patch(t3, a + 4 + n, Word(END_NODE));
    WrittenAhead(b, t, t1, t2, t3, u, a, end, n, name, len, to, size, os, end');
    KeptBehind(b, u, a, end, len, to, end', ot, at, st);
    AheadOf(b, end, os, name, u, end', ot, st, at);
  }

  lemma AheadOf(b: seq<byte>, end: int, os: int, name: seq<byte>, u: seq<byte>, end': int, ot: int, st: int, at: int)
    requires NodeAhead(b, end, os, name, u, end') && end == ot + st && end' == at + st
    ensures PutAhead(b, ot, st, os, name, u, at)
  {
  }

  lemma MovedLength(b: seq<byte>, t: seq<byte>, to: int, from: int, n: int)
    requires IsMoved(b, t, to, from, n)
    ensures |t| == |b|
  {
  }

  lemma WrittenAhead(b: seq<byte>, t: seq<byte>, t1: seq<byte>, t2: seq<byte>, t3: seq<byte>, u: seq<byte>, a: int,
                     end: int, n: int, name: seq<byte>, len: int, to: int, size: int, os: int, end': int)
    requires NoNul(name) && n == Align4(|name| + 1) && len == 4 + n + 4 && 0 <= a <= end && end + len <= |b|
    requires to == a + len && size == end - a && IsMoved(b, t, to, a, size) && IsPatched(t, a, Word(BEGIN_NODE), t1)
    requires IsPatched(t1, a + 4, Zeros(n), t2) && IsPatched(t2, a + 4, name, t3)
    requires IsPatched(t3, a + 4 + n, Word(END_NODE), u) && os == a + 8 && end' == end + len
    ensures |u| == |b| && u[..a] == b[..a] && u[to..end'] == b[a..end]
    ensures NodeAhead(b, end, os, name, u, end')
  {
    MovedLength(b, t, to, a, size);
    var s := b[..end] + t[end + len..];
    MovedAround(b, t, s, a, end, len, to, size);
    NodePatched(s, t, t1, t2, t3, u, a, n, name, to);
    NewBeginOk(name);
    AheadBytes(b, t, s, Encode(NewBegin(name)) + Word(END_NODE), u, a, end, len, to);
    MakeAhead(b, end, a, name, u, end + len);
  }

  lemma NodePatched(s: seq<byte>, t: seq<byte>, t1: seq<byte>, t2: seq<byte>, t3: seq<byte>, u: seq<byte>, a: int,
                    n: int, name: seq<byte>, to: int)
    requires NoNul(name) && n == Align4(|name| + 1) && 0 <= a && to == a + 4 + n + 4 && Around(s, a, a, t, to)
    requires IsPatched(t, a, Word(BEGIN_NODE), t1)
    requires IsPatched(t1, a + 4, Zeros(n), t2) && IsPatched(t2, a + 4, name, t3)
    requires IsPatched(t3, a + 4 + n, Word(END_NODE), u)
    ensures TokenOk(NewBegin(name)) && Exchanged(s, a, a, Encode(NewBegin(name)) + Word(END_NODE), u)
  {
    var at := a + 4 + n;
    HeadWritten(s, a, n, name, to, t, t1, t2, t3);
    assert IsPatched(t3, at, Word(END_NODE), u);
    EndWritten(s, a, n, name, to, at, t3, u);
  }

  lemma MakeAhead(b: seq<byte>, end: int, a: int, name: seq<byte>, u: seq<byte>, end': int)
    requires 0 <= end <= |b| && 0 <= end' <= |u| && IsPutAhead(b[..end], a, name, u[..end'])
    ensures NodeAhead(b, end, a + 8, name, u, end')
  {
  }

  lemma EndWritten(s: seq<byte>, a: int, n: int, name: seq<byte>, to: int, at: int, t: seq<byte>, u: seq<byte>)
    requires 0 <= a && n == Align4(|name| + 1) && at == a + 4 + n && to == at + 4 && NoNul(name)
    requires TokenOk(Begin(name, Zeros(n - |name| - 1))) && Around(s, a, a, t, to)
    requires Holds(t, a, Encode(Begin(name, Zeros(n - |name| - 1)))) && IsPatched(t, at, Word(END_NODE), u)
    ensures TokenOk(NewBegin(name)) && Exchanged(s, a, a, Encode(NewBegin(name)) + Word(END_NODE), u)
  {
    NodeWritten(s, a, n, name, to, at, t, u);
    EmptyNodeBytes(Node(name, Zeros(n - |name| - 1), []));
  }

  lemma MovedAround(b: seq<byte>, t: seq<byte>, s: seq<byte>, a: int, end: int, len: int, to: int, size: int)
    requires 0 <= a <= end && 0 <= len && end + len <= |b| && to == a + len && size == end - a
    requires IsMoved(b, t, to, a, size)
    requires |t| == |b| && s == b[..end] + t[end + len..]
    ensures Around(s, a, a, t, to)
  {
    assert t[..a] == s[..a];
    assert t[to..] == s[a..];
  }

  lemma AheadBytes(b: seq<byte>, t: seq<byte>, s: seq<byte>, x: seq<byte>, u: seq<byte>, a: int, end: int, len: int,
                   to: int)
    requires 0 <= a <= end && 0 <= len && end + len <= |b| == |t| && to == a + len && s == b[..end] + t[end + len..]
    requires |x| == len && Exchanged(s, a, a, x, u)
    ensures |u| == |b| && u[..a] == b[..a] && u[to..end + len] == b[a..end]
    ensures Exchanged(b[..end], a, a, x, u[..end + len])
  {
    assert s[..a] == b[..a] && s[a..end] == b[a..end];
    assert u[..end + len] == b[..a] + x + b[a..end];
    assert b[..end][..a] == b[..a] && b[..end][a..] == b[a..end];
  }

  lemma KeptBehind(b: seq<byte>, u: seq<byte>, a: int, end: int, len: int, to: int, end': int, at: int, at': int,
                   n: int)
    requires 0 <= a <= at && 0 <= n && at + n == end && 0 <= len && end + len <= |b| == |u|
    requires to == a + len && end' == end + len && at' == at + len && u[to..end'] == b[a..end]
    ensures u[at'..at' + n] == b[at..at + n]
  {
    assert u[at'..at' + n] == u[to..end'][at - a..];
    assert b[at..at + n] == b[a..end][at - a..];
  }

  lemma NotHeld(s: seq<byte>, off: int, x: seq<byte>)
    requires 0 <= off <= off + |x| <= |s| && s[off..off + |x|] != x
    ensures !Holds(s, off, x)
  {
    if Holds(s, off, x) { HeldIs(s, off, x); }
  }

  lemma AppendedString(table: seq<byte>, name: seq<byte>, more: seq<byte>, off: int)
    requires NoNul(name) && more == name + [0] && off == |table|
    ensures NameOk(table + more, off) && StringAt(table + more, off) == name
  {
    assert (table + more)[off..off + |more|] == more;
    IsHeld(table + more, off, more);
    HeldString(table + more, off, name);
  }

  /** A string with its NUL in a strings block is the string at its place. */
  lemma HeldString(table: seq<byte>, off: int, name: seq<byte>)
    requires NoNul(name) && Holds(table, off, name + [0])
    ensures NameOk(table, off) && StringAt(table, off) == name
  {
    HoldsParts(table, off, name, [0]);
    HeldIs(table, off, name);
    HoldsAt(table, off + |name|, [0], 0);
    forall i | off <= i < off + |name| ensures table[i] != 0 { HoldsAt(table, off, name, i - off); }
    NameEndAt(table, off, off + |name|);
  }
}
