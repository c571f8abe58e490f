/**
 Name offsets while a tree is being written (fdt_sw.c).  The strings table grows downwards from the
 end of the buffer, and a property refers to its name by the distance from the table's end, as a
 negative 32-bit number.  Adding the table's final size to each makes them offsets from its start.
 */
module FdtFix {
  import opened Seqs
  import opened FdtFormat
  import opened FdtTree
  import opened FdtView
  import opened FdtEdits

  /** 32-bit addition, as fdt_finish does it. */
  function FixOff(nameoff: int, size: int): (r: int)
    ensures 0 <= r < WORDS
  {
    (nameoff + size) % WORDS
  }

  function FixToken(t: Token, size: int): Token {
    if t.Prop? then t.(nameoff := FixOff(t.nameoff, size)) else t
  }

  function FixAll(ts: seq<Token>, size: int): (r: seq<Token>)
    ensures |r| == |ts|
  {
    seq(|ts|, i requires 0 <= i < |ts| => FixToken(ts[i], size))
  }

  function FixNode(n: Node, size: int): Node
    decreases n
  {
    n.(items := FixItems(n.items, size))
  }

  function FixItems(items: seq<Item>, size: int): (r: seq<Item>)
    ensures |r| == |items|
    decreases items
  {
    if items == [] then [] else [FixItem(items[0], size)] + FixItems(items[1..], size)
  }

  function FixItem(item: Item, size: int): (r: Item)
    ensures r.PropItem? == item.PropItem? && r.ChildItem? == item.ChildItem?
    decreases item
  {
    match item
    case PropItem(nameoff, value, pad) => PropItem(FixOff(nameoff, size), value, pad)
    case NopItem => item
    case ChildItem(node) => ChildItem(FixNode(node, size))
  }

  lemma FixAllConcat(a: seq<Token>, b: seq<Token>, size: int)
    ensures FixAll(a + b, size) == FixAll(a, size) + FixAll(b, size)
  {
  }

  lemma {:induction false} FixItemsConcat(a: seq<Item>, b: seq<Item>, size: int)
    ensures FixItems(a + b, size) == FixItems(a, size) + FixItems(b, size)
  {
    if a == [] {
      assert a + b == b;
    } else {
      assert (a + b)[1..] == a[1..] + b;
      FixItemsConcat(a[1..], b, size);
    }
  }

  /** Fixing the tokens of a node is fixing the node. */
  lemma {:induction false} FlattenFix(n: Node, size: int)
    ensures Flatten(FixNode(n, size)) == FixAll(Flatten(n), size)
    decreases n
  {
    FlattenFixItems(n.items, size);
    FixAllConcat([Begin(n.name, n.pad)], FlattenItems(n.items), size);
    FixAllConcat([Begin(n.name, n.pad)] + FlattenItems(n.items), [EndNode], size);
  }

  lemma {:induction false} FlattenFixItems(items: seq<Item>, size: int)
    ensures FlattenItems(FixItems(items, size)) == FixAll(FlattenItems(items), size)
    decreases items
  {
    if items != [] {
      FlattenFixItem(items[0], size);
      FlattenFixItems(items[1..], size);
      Tail(FixItem(items[0], size), FixItems(items[1..], size));
      FixAllConcat(FlattenItem(items[0]), FlattenItems(items[1..]), size);
    }
  }

  lemma {:induction false} FlattenFixItem(item: Item, size: int)
    ensures FlattenItem(FixItem(item, size)) == FixAll(FlattenItem(item), size)
    decreases item
  {
    if item.ChildItem? { FlattenFix(item.node, size); }
  }

  // ---------------------------------------------------------------- names while the table grows

  /** Every property's name is in the table, by its distance from the end. */
  ghost predicate NamesFixable(strings: seq<byte>, ts: seq<Token>) {
    forall i :: 0 <= i < |ts| ==> FixableAt(strings, ts[i])
  }

  ghost predicate FixableAt(strings: seq<byte>, t: Token) {
    t.Prop? ==> Fixable(strings, t.nameoff)
  }

  /** A stored offset counts back from the table's end. */
  ghost predicate Fixable(strings: seq<byte>, nameoff: int) {
    |strings| < WORDS && WORDS - |strings| <= nameoff < WORDS && NameOk(strings, nameoff + |strings| - WORDS)
  }

  /** The name that a stored offset refers to. */
  ghost function RawName(strings: seq<byte>, nameoff: int): seq<byte>
    requires Fixable(strings, nameoff)
  {
    StringAt(strings, nameoff + |strings| - WORDS)
  }

  lemma FixableName(strings: seq<byte>, nameoff: int)
    requires Fixable(strings, nameoff)
    ensures FixOff(nameoff, |strings|) == nameoff + |strings| - WORDS && NameOk(strings, FixOff(nameoff, |strings|))
  {
  }

  lemma FixableNames(strings: seq<byte>, ts: seq<Token>)
    requires NamesFixable(strings, ts)
    ensures NamesOk(strings, FixAll(ts, |strings|))
  {
    forall i | 0 <= i < |ts| ensures NamedOk(strings, FixAll(ts, |strings|)[i]) {
      assert FixableAt(strings, ts[i]);
      if ts[i].Prop? { FixableName(strings, ts[i].nameoff); }
    }
  }

  lemma {:induction false} NameEndShifts(more: seq<byte>, s: seq<byte>, off: int)
    requires 0 <= off
    ensures NameEnd(more + s, |more| + off) == if NameEnd(s, off) == -1 then -1 else |more| + NameEnd(s, off)
    decreases |s| - off
  {
    if off < |s| && s[off] != 0 { NameEndShifts(more, s, off + 1); }
  }

  /** A name keeps its distance from the end when the table grows at the front. */
  lemma FixableGrows(more: seq<byte>, strings: seq<byte>, nameoff: int)
    requires Fixable(strings, nameoff) && |more| + |strings| < WORDS
    ensures Fixable(more + strings, nameoff)
    ensures RawName(more + strings, nameoff) == RawName(strings, nameoff)
  {
    var off := nameoff + |strings| - WORDS;
    NameEndShifts(more, strings, off);
    var end := NameEnd(strings, off) - 1;
    assert (more + strings)[|more| + off..|more| + end] == strings[off..end];
  }

  lemma NamesFixableGrow(more: seq<byte>, strings: seq<byte>, ts: seq<Token>)
    requires NamesFixable(strings, ts) && |more| + |strings| < WORDS
    ensures NamesFixable(more + strings, ts)
  {
    forall i | 0 <= i < |ts| ensures FixableAt(more + strings, ts[i]) {
      assert FixableAt(strings, ts[i]);
      if ts[i].Prop? { FixableGrows(more, strings, ts[i].nameoff); }
    }
  }

  lemma NamesFixableConcat(strings: seq<byte>, a: seq<Token>, b: seq<Token>)
    ensures NamesFixable(strings, a + b) <==> NamesFixable(strings, a) && NamesFixable(strings, b)
  {
    if NamesFixable(strings, a + b) {
      forall i | 0 <= i < |a| ensures FixableAt(strings, a[i]) { assert (a + b)[i] == a[i]; }
      forall i | 0 <= i < |b| ensures FixableAt(strings, b[i]) { assert (a + b)[|a| + i] == b[i]; }
    }
  }

  // ---------------------------------------------------------------- the meaning while the table grows

  /** What a node being written means. */
  ghost function RawView(n: Node, strings: seq<byte>): View
    requires NamesFixable(strings, Flatten(n))
  {
    FixableNames(strings, Flatten(n));
    FlattenFix(n, |strings|);
    ViewOf(FixNode(n, |strings|), strings)
  }

  ghost function RawProps(items: seq<Item>, strings: seq<byte>): seq<Property>
    requires NamesFixable(strings, FlattenItems(items))
  {
    FixableNames(strings, FlattenItems(items));
    FlattenFixItems(items, |strings|);
    Props(FixItems(items, |strings|), strings)
  }

  ghost function RawChildren(items: seq<Item>, strings: seq<byte>): seq<View>
    requires NamesFixable(strings, FlattenItems(items))
  {
    FixableNames(strings, FlattenItems(items));
    FlattenFixItems(items, |strings|);
    Children(FixItems(items, |strings|), strings)
  }

  lemma NodeItemsFixable(n: Node, strings: seq<byte>)
    ensures NamesFixable(strings, Flatten(n)) <==> NamesFixable(strings, FlattenItems(n.items))
  {
    NamesFixableConcat(strings, [Begin(n.name, n.pad)], FlattenItems(n.items));
    NamesFixableConcat(strings, [Begin(n.name, n.pad)] + FlattenItems(n.items), [EndNode]);
  }

  lemma RawViewIs(n: Node, strings: seq<byte>)
    requires NamesFixable(strings, Flatten(n))
    ensures NamesFixable(strings, FlattenItems(n.items))
    ensures RawView(n, strings) == View(n.name, RawProps(n.items, strings), RawChildren(n.items, strings))
  {
    NodeItemsFixable(n, strings);
    FixableNames(strings, Flatten(n));
    FlattenFix(n, |strings|);
    FixableNames(strings, FlattenItems(n.items));
    FlattenFixItems(n.items, |strings|);
  }

  lemma RawHead(items: seq<Item>, strings: seq<byte>)
    requires items != [] && NamesFixable(strings, FlattenItems(items))
    ensures NamesFixable(strings, FlattenItem(items[0])) && NamesFixable(strings, FlattenItems(items[1..]))
    ensures NamesFixable(strings, FlattenItems([items[0]]))
    ensures RawProps(items, strings) == RawProps([items[0]], strings) + RawProps(items[1..], strings)
    ensures RawChildren(items, strings) == RawChildren([items[0]], strings) + RawChildren(items[1..], strings)
  {
    NamesFixableConcat(strings, FlattenItem(items[0]), FlattenItems(items[1..]));
    FlattenOne(items[0]);
    assert items == [items[0]] + items[1..];
    RawConcat([items[0]], items[1..], strings);
  }

  lemma RawConcat(a: seq<Item>, b: seq<Item>, strings: seq<byte>)
    requires NamesFixable(strings, FlattenItems(a)) && NamesFixable(strings, FlattenItems(b))
    ensures NamesFixable(strings, FlattenItems(a + b))
    ensures RawProps(a + b, strings) == RawProps(a, strings) + RawProps(b, strings)
    ensures RawChildren(a + b, strings) == RawChildren(a, strings) + RawChildren(b, strings)
  {
    FlattenConcat(a, b);
    NamesFixableConcat(strings, FlattenItems(a), FlattenItems(b));
    FixItemsConcat(a, b, |strings|);
    FixableNames(strings, FlattenItems(a));
    FixableNames(strings, FlattenItems(b));
    FlattenFixItems(a, |strings|);
    FlattenFixItems(b, |strings|);
    PropsConcat(FixItems(a, |strings|), FixItems(b, |strings|), strings);
    ChildrenConcat(FixItems(a, |strings|), FixItems(b, |strings|), strings);
  }

  /** A written node keeps its meaning when the table grows at the front. */
  lemma {:induction false} RawViewGrows(n: Node, more: seq<byte>, strings: seq<byte>)
    requires NamesFixable(strings, Flatten(n)) && |more| + |strings| < WORDS
    ensures NamesFixable(more + strings, Flatten(n)) && RawView(n, more + strings) == RawView(n, strings)
    decreases n
  {
    NamesFixableGrow(more, strings, Flatten(n));
    RawViewIs(n, strings);
    RawViewIs(n, more + strings);
    RawItemsGrow(n.items, more, strings);
  }

  lemma {:induction false} RawItemsGrow(items: seq<Item>, more: seq<byte>, strings: seq<byte>)
    requires NamesFixable(strings, FlattenItems(items)) && |more| + |strings| < WORDS
    ensures NamesFixable(more + strings, FlattenItems(items))
    ensures RawProps(items, more + strings) == RawProps(items, strings)
    ensures RawChildren(items, more + strings) == RawChildren(items, strings)
    decreases items
  {
    NamesFixableGrow(more, strings, FlattenItems(items));
    if items != [] {
      RawHead(items, strings);
      RawHead(items, more + strings);
      RawItemsGrow(items[1..], more, strings);
      RawItemGrows(items[0], more, strings);
    }
  }

  lemma {:induction false} RawItemGrows(item: Item, more: seq<byte>, strings: seq<byte>)
    requires NamesFixable(strings, FlattenItems([item])) && NamesFixable(more + strings, FlattenItems([item]))
    requires |more| + |strings| < WORDS
    ensures RawProps([item], more + strings) == RawProps([item], strings)
    ensures RawChildren([item], more + strings) == RawChildren([item], strings)
    decreases item
  {
    match item
    case PropItem(nameoff, value, pad) =>
      RawPropGrows(item, more, strings);
    case NopItem =>
      RawNop(strings);
      RawNop(more + strings);
    case ChildItem(node) =>
      FlattenOne(item);
      RawViewGrows(node, more, strings);
      RawChild(node, strings);
      RawChild(node, more + strings);
  }

  lemma RawPropGrows(item: Item, more: seq<byte>, strings: seq<byte>)
    requires item.PropItem? && NamesFixable(strings, FlattenItems([item]))
    requires NamesFixable(more + strings, FlattenItems([item]))
    requires |more| + |strings| < WORDS
    ensures RawProps([item], more + strings) == RawProps([item], strings)
    ensures RawChildren([item], more + strings) == RawChildren([item], strings)
  {
    RawProp(item, strings);
    RawProp(item, more + strings);
    FixableGrows(more, strings, item.nameoff);
  }

  lemma RawProp(item: Item, strings: seq<byte>)
    requires item.PropItem? && NamesFixable(strings, FlattenItems([item]))
    ensures Fixable(strings, item.nameoff)
    ensures RawProps([item], strings) == [Property(RawName(strings, item.nameoff), item.value)]
    ensures RawChildren([item], strings) == []
  {
    FlattenOne(item);
    assert FixableAt(strings, FlattenItems([item])[0]);
    FixableName(strings, item.nameoff);
    assert FixItems([item], |strings|) == [FixItem(item, |strings|)];
    PropMeans(FixItem(item, |strings|), strings);
  }

  lemma RawNop(strings: seq<byte>)
    ensures NamesFixable(strings, FlattenItems([NopItem]))
    ensures RawProps([NopItem], strings) == [] && RawChildren([NopItem], strings) == []
  {
    FlattenOne(NopItem);
    assert FixItems([NopItem], |strings|) == [NopItem];
    NopsMean([NopItem], strings);
  }

  lemma RawChild(node: Node, strings: seq<byte>)
    requires NamesFixable(strings, Flatten(node))
    ensures NamesFixable(strings, FlattenItems([ChildItem(node)]))
    ensures RawProps([ChildItem(node)], strings) == []
    ensures RawChildren([ChildItem(node)], strings) == [RawView(node, strings)]
  {
    FlattenOne(ChildItem(node));
    assert FixItems([ChildItem(node)], |strings|) == [ChildItem(FixNode(node, |strings|))];
    FixableNames(strings, Flatten(node));
    FlattenFix(node, |strings|);
    OneChildMeans(FixNode(node, |strings|), strings);
  }
}
