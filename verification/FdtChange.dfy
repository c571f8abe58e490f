/**
 Changes of a structure block that keep it a tree: the bytes of some items exchanged for others.
 */
module FdtChange {
  import opened Seqs
  import opened Seal
  import opened FdtFormat
  import opened FdtBytes
  import opened FdtTree
  import opened FdtView
  import opened FdtScan
  import opened FdtRead
  import opened FdtSplice
  import opened FdtEdits
  import opened FdtLookup

  /** The tree after items k up to l of the node at p are exchanged. */
  function Edited(root: Node, p: seq<nat>, k: int, l: int, mid: seq<Item>): Node
    requires IsPath(root, p) && 0 <= k <= l <= |NodeAt(root, p).items|
  {
    Replace(root, p, WithItems(NodeAt(root, p), k, l, mid))
  }

  /** A change of bytes that is a change of items keeps the block well formed. */
  lemma EditKeepsTree(s: seq<byte>, strings: seq<byte>, root: Node, p: seq<nat>, k: int, l: int, mid: seq<Item>, a: int,
                      b: int, t: seq<byte>)
    requires TreeOk(s, strings, root) && IsPath(root, p) && 0 <= k <= l <= |NodeAt(root, p).items|
    requires AllOk(FlattenItems(mid)) && NamesOk(strings, FlattenItems(mid)) && FitsOrder(NodeAt(root, p), k, l, mid)
    requires AllOk(Upto(root, p, k)) && AllOk(FlattenItems(NodeAt(root, p).items[k..l]))
    requires a == ItemOffset(root, p, k) && b == a + |EncodeAll(FlattenItems(NodeAt(root, p).items[k..l]))|
    requires Exchanged(s, a, b, EncodeAll(FlattenItems(mid)), t)
    ensures TreeOk(t, strings, Edited(root, p, k, l, mid))
  {
    OpenTree(s, strings, root);
    ItemSplice(s, root, p, k, l, mid, a, b, t);
    EditKeepsOrder(root, p, k, l, mid);
    EditKeepsNames(strings, root, p, k, l, mid);
    CloseTree(t, strings, Edited(root, p, k, l, mid));
  }

  lemma EditKeepsOrder(root: Node, p: seq<nat>, k: int, l: int, mid: seq<Item>)
    requires Ordered(root) && IsPath(root, p) && 0 <= k <= l <= |NodeAt(root, p).items|
    requires FitsOrder(NodeAt(root, p), k, l, mid)
    ensures Ordered(Edited(root, p, k, l, mid))
  {
    var n := NodeAt(root, p);
    OrderedReplace(root, p, root);
    OrderedWithItems(n, k, l, mid);
    OrderedReplace(root, p, WithItems(n, k, l, mid));
  }

  lemma EditKeepsNames(strings: seq<byte>, root: Node, p: seq<nat>, k: int, l: int, mid: seq<Item>)
    requires NamesOk(strings, Flatten(root)) && IsPath(root, p) && 0 <= k <= l <= |NodeAt(root, p).items|
    requires NamesOk(strings, FlattenItems(mid))
    ensures NamesOk(strings, Flatten(Edited(root, p, k, l, mid)))
  {
    var n := NodeAt(root, p);
    NodeNamesOk(root, p, strings);
    ItemsAreOk(n, strings);
    WithItemsMeans(n, k, l, mid, strings);
    NodeIsOk(WithItems(n, k, l, mid), strings);
    ViewReplace(root, p, WithItems(n, k, l, mid), strings);
  }

  /** The meaning of the tree with the meaning of one node changed. */
  ghost function Revised(v: View, q: seq<nat>, props: seq<Property>, children: seq<View>): View
    requires IsViewPath(v, q)
  {
    ReplaceView(v, q, View(ViewAt(v, q).name, props, children))
  }

  /** What a change of items means. */
  lemma EditMeans(strings: seq<byte>, root: Node, p: seq<nat>, k: int, l: int, mid: seq<Item>)
    requires NamesOk(strings, Flatten(root)) && IsPath(root, p) && 0 <= k <= l <= |NodeAt(root, p).items|
    requires NamesOk(strings, FlattenItems(mid))
    ensures NamesOk(strings, Flatten(Edited(root, p, k, l, mid)))
    ensures ItemsOk(strings, WithItems(NodeAt(root, p), k, l, mid))
    ensures IsViewPath(ViewOf(root, strings), ViewPath(root, p))
    ensures var items := WithItems(NodeAt(root, p), k, l, mid).items;
      ViewOf(Edited(root, p, k, l, mid), strings)
      == Revised(ViewOf(root, strings), ViewPath(root, p), Props(items, strings), Children(items, strings))
  {
    var n := NodeAt(root, p);
    NodeNamesOk(root, p, strings);
    ItemsAreOk(n, strings);
    WithItemsMeans(n, k, l, mid, strings);
    NodeIsOk(WithItems(n, k, l, mid), strings);
    ViewReplace(root, p, WithItems(n, k, l, mid), strings);
  }

  /** The node's own part of the meaning. */
  lemma NodeMeans(strings: seq<byte>, root: Node, p: seq<nat>)
    requires NamesOk(strings, Flatten(root)) && IsPath(root, p)
    ensures IsViewPath(ViewOf(root, strings), ViewPath(root, p)) && ItemsOk(strings, NodeAt(root, p))
    ensures ViewAt(ViewOf(root, strings), ViewPath(root, p))
      == View(NodeAt(root, p).name, Props(NodeAt(root, p).items, strings), Children(NodeAt(root, p).items, strings))
  {
    NodeNamesOk(root, p, strings);
    ItemsAreOk(NodeAt(root, p), strings);
    ViewReplace(root, p, NodeAt(root, p), strings);
  }

  /** A grown strings block keeps the tree and its meaning. */
  lemma StringsGrow(s: seq<byte>, strings: seq<byte>, more: seq<byte>, root: Node)
    requires TreeOk(s, strings, root)
    ensures TreeOk(s, strings + more, root) && ViewOf(root, strings + more) == ViewOf(root, strings)
  {
    ViewGrows(root, strings, more);
  }

  // ---------------------------------------------------------------- the bytes of a property

  lemma PropItemBytes(item: Item)
    requires item.PropItem? && TokenOk(Prop(item.nameoff, item.value, item.pad))
    ensures FlattenItems([item]) == [Prop(item.nameoff, item.value, item.pad)] && AllOk(FlattenItems([item]))
    ensures EncodeAll(FlattenItems([item])) == Encode(Prop(item.nameoff, item.value, item.pad))
    ensures |EncodeAll(FlattenItems([item]))| == 12 + |item.value| + |item.pad|
  {
    FlattenOne(item);
    EncodeOne(Prop(item.nameoff, item.value, item.pad));
  }

  lemma PropHeld(t: seq<byte>, q: int, nameoff: int, value: seq<byte>, pad: seq<byte>)
    requires TokenOk(Prop(nameoff, value, pad)) && Holds(t, q, Word(PROP)) && Holds(t, q + 4, Word(|value|))
    requires Holds(t, q + 8, Word(nameoff)) && Holds(t, q + 12, value) && Holds(t, q + 12 + |value|, pad)
    ensures Holds(t, q, Encode(Prop(nameoff, value, pad)))
  {
    HoldsParts(t, q + 12, value, pad);
    HoldsParts(t, q + 4, Word(|value|), Word(nameoff));
    HoldsParts(t, q + 4, Word(|value|) + Word(nameoff), value + pad);
    HoldsParts(t, q, Word(PROP), Word(|value|) + Word(nameoff) + (value + pad));
  }

  /** A property stands at offset r. */
  ghost predicate PropHere(s: seq<byte>, r: int, item: Item) {
    PropStands(s, r, item) == true
  }

  ghost predicate PropStands(s: seq<byte>, r: int, item: Item) {
    && item.PropItem? && 0 <= r
    && forall key: Key :: Opens(key) && key == OfProp ==>
         Aligned(r) && TokenOk(Prop(item.nameoff, item.value, item.pad))
           && Holds(s, r, Encode(Prop(item.nameoff, item.value, item.pad)))
  }

  lemma OpenProp(s: seq<byte>, r: int, item: Item)
    requires PropHere(s, r, item)
    ensures Aligned(r) && TokenOk(Prop(item.nameoff, item.value, item.pad))
    ensures Holds(s, r, Encode(Prop(item.nameoff, item.value, item.pad)))
  {
    assert Opens(OfProp);
  }

  /** What a reader of the property's header needs. */
  lemma PropRoom(s: seq<byte>, r: int, item: Item, len: int, end: int)
    requires PropHere(s, r, item) && len == |item.value| && end == r + 12 + Align4(len)
    ensures 0 <= r && end <= |s|
  {
    PropLength(s, r, item);
  }

  lemma PropLength(s: seq<byte>, r: int, item: Item)
    requires PropHere(s, r, item)
    ensures |item.value| < LENGTHS && r + 12 + Align4(|item.value|) <= |s|
    ensures |item.value| + |item.pad| == Align4(|item.value|)
    ensures WordAt(s, r + 4) == |item.value|
  {
    OpenProp(s, r, item);
    TagAtProp(s, r, item.nameoff, item.value, item.pad);
  }

  lemma ValueHere(s: seq<byte>, r: int, item: Item)
    requires PropHere(s, r, item) && r + 12 + |item.value| <= |s|
    ensures s[r + 12..r + 12 + |item.value|] == item.value
  {
    ValueHeld(s, r, item);
    HeldIs(s, r + 12, item.value);
  }

  lemma ValueHeld(s: seq<byte>, r: int, item: Item)
    requires PropHere(s, r, item)
    ensures Holds(s, r + 12, item.value)
  {
    OpenProp(s, r, item);
    TagAtProp(s, r, item.nameoff, item.value, item.pad);
  }

  // ---------------------------------------------------------------- properties: bytes and meaning together

  /** The tree with the properties of one node exchanged. */
  ghost function WithProps(v: View, q: seq<nat>, props: seq<Property>): View
    requires IsViewPath(v, q)
  {
    ReplaceView(v, q, ViewAt(v, q).(props := props))
  }

  /** The bytes of a property written in the place of another. */
  ghost predicate PropWritten(s: seq<byte>, a: int, b: int, t: seq<byte>, nameoff: int, value: seq<byte>,
                              pad: seq<byte>) {
    PropBytes(s, a, b, t, nameoff, value, pad) == true
  }

  ghost predicate PropBytes(s: seq<byte>, a: int, b: int, t: seq<byte>, nameoff: int, value: seq<byte>,
                            pad: seq<byte>) {
    && Around(s, a, b, t, a + 12 + |value| + |pad|) && Holds(t, a, Word(PROP)) && |value| < LENGTHS
      && 0 <= nameoff < WORDS
    && Holds(t, a + 4, Word(|value|)) && Holds(t, a + 8, Word(nameoff)) && Holds(t, a + 12, value)
    && Holds(t, a + 12 + |value|, pad) && |value| + |pad| == Align4(|value|)
  }

  lemma WrittenIsExchanged(s: seq<byte>, a: int, b: int, t: seq<byte>, item: Item)
    requires item.PropItem? && PropWritten(s, a, b, t, item.nameoff, item.value, item.pad)
    ensures AllOk(FlattenItems([item])) && Exchanged(s, a, b, EncodeAll(FlattenItems([item])), t)
  {
    PropHeld(t, a, item.nameoff, item.value, item.pad);
    PropItemBytes(item);
    AroundExchanged(s, a, b, t, a + 12 + |item.value| + |item.pad|, Encode(Prop(item.nameoff, item.value, item.pad)));
  }

  lemma OnePropFits(n: Node, k: int, l: int, item: Item)
    requires 0 <= k <= l <= |n.items| && item.PropItem? && NoChild(n.items[..k])
    ensures FitsOrder(n, k, l, [item])
  {
  }

  lemma PropFits(s: seq<byte>, strings: seq<byte>, root: Node, p: seq<nat>, k: int, item: Item)
    requires TreeOk(s, strings, root) && IsPath(root, p) && 0 <= k < |NodeAt(root, p).items|
    requires NodeAt(root, p).items[k].PropItem? && item.PropItem?
    ensures FitsOrder(NodeAt(root, p), k, k + 1, [item])
  {
    OpenTree(s, strings, root);
    OrderedReplace(root, p, root);
    BeforeProp(NodeAt(root, p), k);
    OnePropFits(NodeAt(root, p), k, k + 1, item);
  }

  lemma PropSpan(n: Node, k: int)
    requires 0 <= k < |n.items| && n.items[k].PropItem?
    requires TokenOk(Prop(n.items[k].nameoff, n.items[k].value, n.items[k].pad))
    ensures AllOk(FlattenItems(n.items[k..k + 1]))
    ensures |EncodeAll(FlattenItems(n.items[k..k + 1]))| == 12 + |n.items[k].value| + |n.items[k].pad|
  {
    CutAround(n.items, k);
    PropItemBytes(n.items[k]);
  }

  /** The bytes that a property takes up. */
  lemma PropPlace(s: seq<byte>, root: Node, p: seq<nat>, k: nat, r: int)
    requires PropAt(s, root, p, k, r)
    ensures IsPath(root, p) && k < |NodeAt(root, p).items| && NodeAt(root, p).items[k].PropItem?
    ensures AllOk(Upto(root, p, k))
    ensures AllOk(FlattenItems(NodeAt(root, p).items[k..k + 1])) && r == ItemOffset(root, p, k)
    ensures var o := NodeAt(root, p).items[k];
      r + 12 + |o.value| + |o.pad| == r + |EncodeAll(FlattenItems(NodeAt(root, p).items[k..k + 1]))|
  {
    PropSpan(NodeAt(root, p), k);
  }

  /** A property exchanged for another of the same name. */
  lemma SetKeepsTree(s: seq<byte>, strings: seq<byte>, root: Node, p: seq<nat>, k: nat, r: int, end: int, item: Item,
                     t: seq<byte>)
    requires TreeOk(s, strings, root) && PropAt(s, root, p, k, r) && item.PropItem?
    requires item.nameoff == NodeAt(root, p).items[k].nameoff
    requires NameOk(strings, item.nameoff)
    requires var o := NodeAt(root, p).items[k]; end == r + 12 + |o.value| + |o.pad|
    requires PropWritten(s, r, end, t, item.nameoff, item.value, item.pad)
    ensures TreeOk(t, strings, Edited(root, p, k, k + 1, [item]))
  {
    var n := NodeAt(root, p);
    PropPlace(s, root, p, k, r);
    PropFits(s, strings, root, p, k, item);
    WrittenIsExchanged(s, r, end, t, item);
    PropMeans(item, strings);
    EditKeepsTree(s, strings, root, p, k, k + 1, [item], r, end, t);
  }

  /** What it means. */
  lemma SetMeans(strings: seq<byte>, root: Node, p: seq<nat>, k: nat, name: seq<byte>, item: Item)
    requires NamesOk(strings, Flatten(root)) && IsPath(root, p) && Ordered(root) && ItemsOk(strings, NodeAt(root, p))
    requires k == FirstProp(NodeAt(root, p).items, strings, name) < |NodeAt(root, p).items|
    requires item.PropItem? && item.nameoff == NodeAt(root, p).items[k].nameoff
    ensures NamesOk(strings, Flatten(Edited(root, p, k, k + 1, [item])))
    ensures IsViewPath(ViewOf(root, strings), ViewPath(root, p))
    ensures var v, q := ViewOf(root, strings), ViewPath(root, p);
      var props := ViewAt(v, q).props;
      var f := FirstNamed(props, name);
      && f < |props| && props[f] == Property(name, NodeAt(root, p).items[k].value)
      && ViewOf(Edited(root, p, k, k + 1, [item]), strings) == WithProps(v, q, props[f := Property(name, item.value)])
  {
    var n := NodeAt(root, p);
    OrderedReplace(root, p, root);
    FoundName(n.items, strings, name);
    PropMeans(item, strings);
    EditMeans(strings, root, p, k, k + 1, [item]);
    NodeMeans(strings, root, p);
    PutMeans(n, strings, name, k, item.value, item.pad);
  }

  lemma EmptySpan(root: Node, p: seq<nat>, k: int)
    requires IsPath(root, p) && 0 <= k <= |NodeAt(root, p).items|
    ensures NodeAt(root, p).items[k..k] == [] && FlattenItems(NodeAt(root, p).items[k..k]) == []
    ensures AllOk(FlattenItems(NodeAt(root, p).items[k..k]))
    ensures EncodeAll(FlattenItems(NodeAt(root, p).items[k..k])) == []
  {
  }

  /** A new property in front of the node's items. */
  lemma AddKeepsTree(s: seq<byte>, strings: seq<byte>, root: Node, p: seq<nat>, item: Item, t: seq<byte>)
    requires TreeOk(s, strings, root) && IsPath(root, p) && AllOk(Upto(root, p, 0))
    requires item.PropItem? && NameOk(strings, item.nameoff)
    requires PropWritten(s, ItemOffset(root, p, 0), ItemOffset(root, p, 0), t, item.nameoff, item.value, item.pad)
    ensures TreeOk(t, strings, Edited(root, p, 0, 0, [item]))
  {
    var n := NodeAt(root, p);
    assert n.items[..0] == [];
    OnePropFits(n, 0, 0, item);
    EmptySpan(root, p, 0);
    WrittenIsExchanged(s, ItemOffset(root, p, 0), ItemOffset(root, p, 0), t, item);
    PropMeans(item, strings);
    EditKeepsTree(s, strings, root, p, 0, 0, [item], ItemOffset(root, p, 0), ItemOffset(root, p, 0), t);
  }

  lemma AddMeans(strings: seq<byte>, root: Node, p: seq<nat>, item: Item)
    requires NamesOk(strings, Flatten(root)) && IsPath(root, p) && item.PropItem? && NameOk(strings, item.nameoff)
    ensures NamesOk(strings, Flatten(Edited(root, p, 0, 0, [item])))
    ensures IsViewPath(ViewOf(root, strings), ViewPath(root, p))
    ensures var v, q := ViewOf(root, strings), ViewPath(root, p);
      ViewOf(Edited(root, p, 0, 0, [item]), strings)
      == WithProps(v, q, [Property(StringAt(strings, item.nameoff), item.value)] + ViewAt(v, q).props)
  {
    PropMeans(item, strings);
    EditMeans(strings, root, p, 0, 0, [item]);
    NodeMeans(strings, root, p);
    FrontMeans(NodeAt(root, p), item, strings);
  }

  /** A property taken away, its place closed or filled with no-ops. */
  lemma DropKeepsTree(s: seq<byte>, strings: seq<byte>, root: Node, p: seq<nat>, k: nat, r: int, end: int,
                      mid: seq<Item>, t: seq<byte>)
    requires TreeOk(s, strings, root) && PropAt(s, root, p, k, r) && AllNops(mid) && AllOk(FlattenItems(mid))
    requires var o := NodeAt(root, p).items[k]; end == r + 12 + |o.value| + |o.pad|
    requires Exchanged(s, r, end, EncodeAll(FlattenItems(mid)), t)
    ensures TreeOk(t, strings, Edited(root, p, k, k + 1, mid))
  {
    PropPlace(s, root, p, k, r);
    NopsMean(mid, strings);
    NopsFit(NodeAt(root, p), k, k + 1, mid);
    EditKeepsTree(s, strings, root, p, k, k + 1, mid, r, end, t);
  }

  lemma NopsFit(n: Node, k: int, l: int, mid: seq<Item>)
    requires 0 <= k <= l <= |n.items| && AllNops(mid)
    ensures FitsOrder(n, k, l, mid)
  {
  }

  lemma DropMeansTree(strings: seq<byte>, root: Node, p: seq<nat>, k: nat, name: seq<byte>, mid: seq<Item>)
    requires NamesOk(strings, Flatten(root)) && IsPath(root, p) && Ordered(root)
    requires ItemsOk(strings, NodeAt(root, p)) && AllNops(mid)
    requires k == FirstProp(NodeAt(root, p).items, strings, name) < |NodeAt(root, p).items|
    ensures NamesOk(strings, Flatten(Edited(root, p, k, k + 1, mid)))
    ensures IsViewPath(ViewOf(root, strings), ViewPath(root, p))
    ensures var v, q := ViewOf(root, strings), ViewPath(root, p);
      var props := ViewAt(v, q).props;
      && FirstNamed(props, name) < |props|
      && ViewOf(Edited(root, p, k, k + 1, mid), strings) == WithProps(v, q, DropProp(props, name))
  {
    OrderedReplace(root, p, root);
    NopsMean(mid, strings);
    EditMeans(strings, root, p, k, k + 1, mid);
    NodeMeans(strings, root, p);
    DropMeans(NodeAt(root, p), strings, name, k, mid);
  }

  /** A node without the property asked for. */
  lemma NoneMeans(strings: seq<byte>, root: Node, p: seq<nat>, name: seq<byte>)
    requires NamesOk(strings, Flatten(root)) && IsPath(root, p) && Ordered(root) && ItemsOk(strings, NodeAt(root, p))
    requires FirstProp(NodeAt(root, p).items, strings, name) == |NodeAt(root, p).items|
    ensures IsViewPath(ViewOf(root, strings), ViewPath(root, p))
    ensures var props := ViewAt(ViewOf(root, strings), ViewPath(root, p)).props;
      FirstNamed(props, name) == |props|
  {
    OrderedReplace(root, p, root);
    NodeMeans(strings, root, p);
    FirstPropMeans(NodeAt(root, p).items, strings, name);
  }

  // ---------------------------------------------------------------- subnodes: bytes and meaning together

  ghost function WithChildren(v: View, q: seq<nat>, children: seq<View>): View
    requires IsViewPath(v, q)
  {
    ReplaceView(v, q, ViewAt(v, q).(children := children))
  }

  /** A new empty node after the properties of its parent. */
  lemma SubnodeKeepsTree(s: seq<byte>, strings: seq<byte>, root: Node, p: seq<nat>, k: nat, m: Node, t: seq<byte>)
    requires TreeOk(s, strings, root) && IsPath(root, p) && k == FirstChild(NodeAt(root, p).items)
    requires AllOk(Upto(root, p, k))
    requires m.items == [] && AllOk(Flatten(m))
    requires Exchanged(s, ItemOffset(root, p, k), ItemOffset(root, p, k), EncodeAll(Flatten(m)), t)
    ensures TreeOk(t, strings, Edited(root, p, k, k, [ChildItem(m)]))
  {
    EmptySpan(root, p, k);
    FlattenOne(ChildItem(m));
    assert FlattenItem(ChildItem(m)) == Flatten(m);
    EmptyNodeOk(m, strings);
    ChildFits(s, strings, root, p, k, m);
    EditKeepsTree(s, strings, root, p, k, k, [ChildItem(m)], ItemOffset(root, p, k), ItemOffset(root, p, k), t);
  }

  lemma EmptyNodeOk(m: Node, strings: seq<byte>)
    requires m.items == []
    ensures Ordered(m) && NamesOk(strings, Flatten(m)) && Flatten(m) == [Begin(m.name, m.pad), EndNode]
    ensures ViewOf(m, strings) == View(m.name, [], [])
  {
  }

  lemma ChildFits(s: seq<byte>, strings: seq<byte>, root: Node, p: seq<nat>, k: nat, m: Node)
    requires TreeOk(s, strings, root) && IsPath(root, p) && k == FirstChild(NodeAt(root, p).items) && Ordered(m)
    ensures FitsOrder(NodeAt(root, p), k, k, [ChildItem(m)])
  {
    OpenTree(s, strings, root);
    OrderedReplace(root, p, root);
    var items := NodeAt(root, p).items;
    forall i | 0 <= i < |items[k..]| ensures !items[k..][i].PropItem? { assert items[k..][i] == items[k + i]; }
  }

  lemma SubnodeMeansTree(strings: seq<byte>, root: Node, p: seq<nat>, k: nat, m: Node)
    requires NamesOk(strings, Flatten(root)) && IsPath(root, p) && k == FirstChild(NodeAt(root, p).items)
    requires m.items == []
    ensures NamesOk(strings, Flatten(Edited(root, p, k, k, [ChildItem(m)])))
    ensures IsViewPath(ViewOf(root, strings), ViewPath(root, p))
    ensures var v, q := ViewOf(root, strings), ViewPath(root, p);
      ViewOf(Edited(root, p, k, k, [ChildItem(m)]), strings)
      == WithChildren(v, q, [View(m.name, [], [])] + ViewAt(v, q).children)
  {
    EmptyNodeOk(m, strings);
    OneMeans(ChildItem(m), strings);
    EditMeans(strings, root, p, k, k, [ChildItem(m)]);
    NodeMeans(strings, root, p);
    SubnodeMeans(NodeAt(root, p), m, strings, k);
  }

  /** A subnode taken away with all below it, its place closed or filled with no-ops. */
  lemma RemoveKeepsTree(s: seq<byte>, strings: seq<byte>, root: Node, p: seq<nat>, k: nat, mid: seq<Item>, off: int,
                        end: int, t: seq<byte>)
    requires TreeOk(s, strings, root) && IsPath(root, p) && k < |NodeAt(root, p).items|
    requires NodeAt(root, p).items[k].ChildItem?
    requires AllNops(mid) && AllOk(FlattenItems(mid)) && AllOk(Upto(root, p, k))
    requires AllOk(Flatten(NodeAt(root, p).items[k].node))
    requires off == ItemOffset(root, p, k) && end == off + |EncodeAll(Flatten(NodeAt(root, p).items[k].node))|
    requires Exchanged(s, off, end, EncodeAll(FlattenItems(mid)), t)
    ensures TreeOk(t, strings, Edited(root, p, k, k + 1, mid))
  {
    var n := NodeAt(root, p);
    CutAround(n.items, k);
    FlattenOne(n.items[k]);
    NopsMean(mid, strings);
    NopsFit(n, k, k + 1, mid);
    EditKeepsTree(s, strings, root, p, k, k + 1, mid, off, end, t);
  }

  lemma RemoveMeansTree(strings: seq<byte>, root: Node, p: seq<nat>, k: nat, mid: seq<Item>)
    requires NamesOk(strings, Flatten(root)) && IsPath(root, p) && AllNops(mid)
    requires k < |NodeAt(root, p).items| && NodeAt(root, p).items[k].ChildItem?
    ensures NamesOk(strings, Flatten(Edited(root, p, k, k + 1, mid)))
    ensures IsViewPath(ViewOf(root, strings), ViewPath(root, p))
    ensures var v, q, c := ViewOf(root, strings), ViewPath(root, p), Count(NodeAt(root, p).items[..k]);
      var children := ViewAt(v, q).children;
      && c < |children|
      && ViewOf(Edited(root, p, k, k + 1, mid), strings) == WithChildren(v, q, children[..c] + children[c + 1..])
  {
    NopsMean(mid, strings);
    EditMeans(strings, root, p, k, k + 1, mid);
    NodeMeans(strings, root, p);
    RemoveMeans(NodeAt(root, p), k, mid, strings);
  }

  // ---------------------------------------------------------------- renaming

  lemma RenameKeepsTree(s: seq<byte>, strings: seq<byte>, root: Node, p: seq<nat>, name: seq<byte>, pad: seq<byte>,
                        from: int, to: int, t: seq<byte>)
    requires TreeOk(s, strings, root) && IsPath(root, p) && AllOk(Before(root, p)) && TokenOk(Begin(name, pad))
    requires TokenOk(Begin(NodeAt(root, p).name, NodeAt(root, p).pad))
    requires from == |EncodeAll(Before(root, p))|
    requires to == from + |Encode(Begin(NodeAt(root, p).name, NodeAt(root, p).pad))|
    requires Exchanged(s, from, to, Encode(Begin(name, pad)), t)
    ensures TreeOk(t, strings, Replace(root, p, NodeAt(root, p).(name := name, pad := pad)))
  {
    var n := NodeAt(root, p);
    var n' := n.(name := name, pad := pad);
    OpenTree(s, strings, root);
    OrderedReplace(root, p, root);
    OrderedReplace(root, p, n');
    RenameSplice(s, root, p, name, pad, from, to, t);
    RenameMeans(strings, root, p, name, pad);
    CloseTree(t, strings, Replace(root, p, n'));
  }

  lemma RenameSplice(s: seq<byte>, root: Node, p: seq<nat>, name: seq<byte>, pad: seq<byte>, from: int, to: int,
                     t: seq<byte>)
    requires Stands(s, 0, Flatten(root) + [End]) && IsPath(root, p) && AllOk(Before(root, p))
    requires TokenOk(Begin(name, pad))
    requires TokenOk(Begin(NodeAt(root, p).name, NodeAt(root, p).pad))
    requires from == |EncodeAll(Before(root, p))|
    requires to == from + |Encode(Begin(NodeAt(root, p).name, NodeAt(root, p).pad))|
    requires Exchanged(s, from, to, Encode(Begin(name, pad)), t)
    ensures Stands(t, 0, Flatten(Replace(root, p, NodeAt(root, p).(name := name, pad := pad))) + [End])
  {
    FrontStands(s, Flatten(root), [End]);
    var n := NodeAt(root, p);
    var a, rest := Before(root, p), Rest(root, p);
    RenameTokens(root, p, n.name, n.pad);
    ReplaceSame(root, p);
    RenameTokens(root, p, name, pad);
    AllOkParts(a + [Begin(n.name, n.pad)], rest);
    OneTokenSpliced(s, a, Begin(n.name, n.pad), rest, Begin(name, pad), from, to, t);
  }

  lemma OneTokenSpliced(s: seq<byte>, a: seq<Token>, old': Token, c: seq<Token>, new': Token, from: int, to: int,
                        t: seq<byte>)
    requires AllOk(a) && TokenOk(old') && AllOk(c) && TokenOk(new') && Stands(s, 0, a + [old'] + c + [End])
    requires from == |EncodeAll(a)| && to == from + |Encode(old')| && Exchanged(s, from, to, Encode(new'), t)
    ensures Stands(t, 0, a + [new'] + c + [End])
  {
    EncodeOne(old');
    EncodeOne(new');
    StandsSpliced(s, a, [old'], c, [End], [new'], from, to, t);
  }

  /** The tokens after the begin tag of a node. */
  function Rest(root: Node, p: seq<nat>): seq<Token>
    requires IsPath(root, p)
  {
    FlattenItems(NodeAt(root, p).items) + [EndNode] + After(root, p)
  }

  lemma RenameTokens(root: Node, p: seq<nat>, name: seq<byte>, pad: seq<byte>)
    requires IsPath(root, p)
    ensures Flatten(Replace(root, p, NodeAt(root, p).(name := name, pad := pad)))
      == Before(root, p) + [Begin(name, pad)] + Rest(root, p)
  {
    var n := NodeAt(root, p);
    FlattenReplace(root, p, n.(name := name, pad := pad));
    Reassociate(Before(root, p), [Begin(name, pad)], [], [], FlattenItems(n.items), [EndNode], After(root, p));
    assert [] + [] + FlattenItems(n.items) == FlattenItems(n.items);
    assert Before(root, p) + [Begin(name, pad)] + [] + [] == Before(root, p) + [Begin(name, pad)];
  }

  lemma RenameMeans(strings: seq<byte>, root: Node, p: seq<nat>, name: seq<byte>, pad: seq<byte>)
    requires NamesOk(strings, Flatten(root)) && IsPath(root, p)
    ensures var m := Replace(root, p, NodeAt(root, p).(name := name, pad := pad));
      && NamesOk(strings, Flatten(m)) && IsViewPath(ViewOf(root, strings), ViewPath(root, p))
      && var v, q := ViewOf(root, strings), ViewPath(root, p);
         ViewOf(m, strings) == ReplaceView(v, q, ViewAt(v, q).(name := name))
  {
    var n := NodeAt(root, p);
    NodeNamesOk(root, p, strings);
    ItemsAreOk(n, strings);
    NodeIsOk(n.(name := name, pad := pad), strings);
    ViewReplace(root, p, n.(name := name, pad := pad), strings);
    NodeMeans(strings, root, p);
  }
}
