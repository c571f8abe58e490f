/**
 What a device tree means to its readers: names, properties with their names looked up in the
 strings block, and subnodes; and the edits that the editing functions promise, on that meaning.
 */
module FdtView {
  import opened Seqs
  import opened FdtFormat
  import opened FdtTree

  datatype Property = Property(name: seq<byte>, value: seq<byte>)
  datatype View = View(name: seq<byte>, props: seq<Property>, children: seq<View>)

  // ---------------------------------------------------------------- the strings block

  predicate NameOk(strings: seq<byte>, off: int) {
    0 <= off && NameEnd(strings, off) != -1
  }

  /** The string at an offset, up to its NUL. */
  function StringAt(strings: seq<byte>, off: int): (name: seq<byte>)
    requires NameOk(strings, off)
    ensures off + |name| < |strings|
  {
    strings[off..NameEnd(strings, off) - 1]
  }

  lemma {:induction false} NameEndGrows(s: seq<byte>, more: seq<byte>, off: int)
    requires 0 <= off && NameEnd(s, off) != -1
    ensures NameEnd(s + more, off) == NameEnd(s, off)
    decreases |s| - off
  {
    if s[off] != 0 { NameEndGrows(s, more, off + 1); }
  }

  lemma StringGrows(s: seq<byte>, more: seq<byte>, off: int)
    requires NameOk(s, off)
    ensures NameOk(s + more, off) && StringAt(s + more, off) == StringAt(s, off)
  {
    NameEndGrows(s, more, off);
    var end := NameEnd(s, off) - 1;
    assert (s + more)[off..end] == s[off..end];
  }

  lemma {:induction false} NameEndIsFirst(s: seq<byte>, off: int)
    requires NameOk(s, off)
    ensures NoNul(StringAt(s, off)) && s[NameEnd(s, off) - 1] == 0
    decreases |s| - off
  {
    if s[off] != 0 {
      NameEndIsFirst(s, off + 1);
      var name := StringAt(s, off);
      forall i | 0 <= i < |name| ensures name[i] != 0 {
        if i > 0 { assert name[i] == StringAt(s, off + 1)[i - 1]; }
      }
    }
  }

  predicate NamesOk(strings: seq<byte>, ts: seq<Token>) {
    forall i :: 0 <= i < |ts| ==> NamedOk(strings, ts[i])
  }

  predicate NamedOk(strings: seq<byte>, t: Token) { t.Prop? ==> NameOk(strings, t.nameoff) }

  // ---------------------------------------------------------------- meaning

  ghost predicate PropsFirst(items: seq<Item>) {
    forall i, j :: 0 <= i < j < |items| && items[i].ChildItem? ==> !items[j].PropItem?
  }

  /** Properties come before subnodes, in every node. */
  ghost predicate Ordered(n: Node) {
    PropsFirst(n.items) && forall i :: 0 <= i < |n.items| && n.items[i].ChildItem? ==> Ordered(n.items[i].node)
  }

  ghost function ViewOf(n: Node, strings: seq<byte>): View
    requires NamesOk(strings, Flatten(n))
    decreases n
  {
    ItemsAreOk(n, strings);
    View(n.name, Props(n.items, strings), Children(n.items, strings))
  }

  lemma ItemsAreOk(n: Node, strings: seq<byte>)
    requires NamesOk(strings, Flatten(n))
    ensures NamesOk(strings, FlattenItems(n.items))
  {
    var ts, f := FlattenItems(n.items), Flatten(n);
    forall i | 0 <= i < |ts| ensures NamedOk(strings, ts[i]) { assert f[i + 1] == ts[i]; }
  }

  lemma HeadIsOk(items: seq<Item>, strings: seq<byte>)
    requires NamesOk(strings, FlattenItems(items)) && items != []
    ensures NamesOk(strings, FlattenItem(items[0])) && NamesOk(strings, FlattenItems(items[1..]))
  {
    NamesConcat(strings, FlattenItem(items[0]), FlattenItems(items[1..]));
  }

  lemma NamesConcat(strings: seq<byte>, a: seq<Token>, b: seq<Token>)
    ensures NamesOk(strings, a + b) <==> NamesOk(strings, a) && NamesOk(strings, b)
  {
    if NamesOk(strings, a + b) {
      forall i | 0 <= i < |a| ensures NamedOk(strings, a[i]) { assert (a + b)[i] == a[i]; }
      forall i | 0 <= i < |b| ensures NamedOk(strings, b[i]) { assert (a + b)[|a| + i] == b[i]; }
    }
  }

  ghost function Props(items: seq<Item>, strings: seq<byte>): seq<Property>
    requires NamesOk(strings, FlattenItems(items))
    decreases items
  {
    if items == [] then []
    else
      HeadIsOk(items, strings);
      PropOf(items[0], strings) + Props(items[1..], strings)
  }

  ghost function PropOf(item: Item, strings: seq<byte>): seq<Property>
    requires NamesOk(strings, FlattenItem(item))
  {
    if item.PropItem? then
      assert NamedOk(strings, FlattenItem(item)[0]);
      [Property(StringAt(strings, item.nameoff), item.value)]
    else []
  }

  ghost function Children(items: seq<Item>, strings: seq<byte>): seq<View>
    requires NamesOk(strings, FlattenItems(items))
    decreases items
  {
    if items == [] then []
    else
      HeadIsOk(items, strings);
      ChildOf(items[0], strings) + Children(items[1..], strings)
  }

  ghost function ChildOf(item: Item, strings: seq<byte>): seq<View>
    requires NamesOk(strings, FlattenItem(item))
    decreases item
  {
    if item.ChildItem? then [ViewOf(item.node, strings)] else []
  }

  lemma NamesOfConcat(a: seq<Item>, b: seq<Item>, strings: seq<byte>)
    requires NamesOk(strings, FlattenItems(a)) && NamesOk(strings, FlattenItems(b))
    ensures NamesOk(strings, FlattenItems(a + b))
  {
    FlattenConcat(a, b);
    NamesConcat(strings, FlattenItems(a), FlattenItems(b));
  }

  lemma {:induction false} PropsConcat(a: seq<Item>, b: seq<Item>, strings: seq<byte>)
    requires NamesOk(strings, FlattenItems(a)) && NamesOk(strings, FlattenItems(b))
    ensures NamesOk(strings, FlattenItems(a + b)) && Props(a + b, strings) == Props(a, strings) + Props(b, strings)
  {
    NamesOfConcat(a, b, strings);
    if a == [] {
      assert a + b == b;
    } else {
      HeadIsOk(a, strings);
      assert (a + b)[1..] == a[1..] + b;
      PropsConcat(a[1..], b, strings);
    }
  }

  lemma {:induction false} ChildrenConcat(a: seq<Item>, b: seq<Item>, strings: seq<byte>)
    requires NamesOk(strings, FlattenItems(a)) && NamesOk(strings, FlattenItems(b))
    ensures NamesOk(strings, FlattenItems(a + b))
    ensures Children(a + b, strings) == Children(a, strings) + Children(b, strings)
  {
    NamesOfConcat(a, b, strings);
    if a == [] {
      assert a + b == b;
    } else {
      HeadIsOk(a, strings);
      assert (a + b)[1..] == a[1..] + b;
      ChildrenConcat(a[1..], b, strings);
    }
  }

  // ---------------------------------------------------------------- a growing strings block

  lemma {:induction false} ViewGrows(n: Node, strings: seq<byte>, more: seq<byte>)
    requires NamesOk(strings, Flatten(n))
    ensures NamesOk(strings + more, Flatten(n)) && ViewOf(n, strings + more) == ViewOf(n, strings)
    decreases n
  {
    NamesGrow(Flatten(n), strings, more);
    ItemsAreOk(n, strings);
    ItemsGrow(n.items, strings, more);
  }

  lemma NamesGrow(ts: seq<Token>, strings: seq<byte>, more: seq<byte>)
    requires NamesOk(strings, ts)
    ensures NamesOk(strings + more, ts)
  {
    forall i | 0 <= i < |ts| ensures NamedOk(strings + more, ts[i]) {
      if ts[i].Prop? { StringGrows(strings, more, ts[i].nameoff); }
    }
  }

  lemma {:induction false} ItemsGrow(items: seq<Item>, strings: seq<byte>, more: seq<byte>)
    requires NamesOk(strings, FlattenItems(items))
    ensures NamesOk(strings + more, FlattenItems(items))
    ensures Props(items, strings + more) == Props(items, strings)
    ensures Children(items, strings + more) == Children(items, strings)
    decreases items
  {
    NamesGrow(FlattenItems(items), strings, more);
    if items != [] {
      HeadIsOk(items, strings);
      HeadIsOk(items, strings + more);
      ItemsGrow(items[1..], strings, more);
      ItemGrows(items[0], strings, more);
    }
  }

  lemma {:induction false} ItemGrows(item: Item, strings: seq<byte>, more: seq<byte>)
    requires NamesOk(strings, FlattenItem(item)) && NamesOk(strings + more, FlattenItem(item))
    ensures PropOf(item, strings + more) == PropOf(item, strings)
    ensures ChildOf(item, strings + more) == ChildOf(item, strings)
    decreases item
  {
    if item.PropItem? {
      assert NamedOk(strings, FlattenItem(item)[0]);
      StringGrows(strings, more, item.nameoff);
    }
    if item.ChildItem? { ViewGrows(item.node, strings, more); }
  }

  // ---------------------------------------------------------------- edits of the meaning

  predicate IsViewPath(v: View, q: seq<nat>)
    decreases |q|
  {
    q == [] || (q[0] < |v.children| && IsViewPath(v.children[q[0]], q[1..]))
  }

  function ViewAt(v: View, q: seq<nat>): View
    requires IsViewPath(v, q)
    decreases |q|
  {
    if q == [] then v else ViewAt(v.children[q[0]], q[1..])
  }

  /** The tree with one node exchanged. */
  function ReplaceView(v: View, q: seq<nat>, w: View): View
    requires IsViewPath(v, q)
    decreases |q|
  {
    if q == [] then w
    else v.(children := v.children[q[0] := ReplaceView(v.children[q[0]], q[1..], w)])
  }

  /** Exchanging a node leaves every node that is not on or below it with its name and properties. */
  lemma {:induction false} OthersIntact(v: View, q: seq<nat>, w: View, r: seq<nat>)
    requires IsViewPath(v, q) && IsViewPath(v, r) && !(q <= r)
    ensures IsViewPath(ReplaceView(v, q, w), r)
    ensures ViewAt(ReplaceView(v, q, w), r).name == ViewAt(v, r).name
    ensures ViewAt(ReplaceView(v, q, w), r).props == ViewAt(v, r).props
    decreases |q|
  {
    if r != [] && r[0] == q[0] {
      assert q == [q[0]] + q[1..] && r == [r[0]] + r[1..];
      OthersIntact(v.children[q[0]], q[1..], w, r[1..]);
    }
  }

  /** And the exchanged node is the new one. */
  lemma {:induction false} ReplacedAt(v: View, q: seq<nat>, w: View)
    requires IsViewPath(v, q)
    ensures IsViewPath(ReplaceView(v, q, w), q) && ViewAt(ReplaceView(v, q, w), q) == w
    decreases |q|
  {
    if q != [] { ReplacedAt(v.children[q[0]], q[1..], w); }
  }

  /** The first property of a name, or the number of properties. */
  function FirstNamed(props: seq<Property>, name: seq<byte>): (k: nat)
    ensures k <= |props|
    ensures k < |props| ==> props[k].name == name
    ensures forall i :: 0 <= i < k ==> props[i].name != name
  {
    if props == [] || props[0].name == name then 0 else 1 + FirstNamed(props[1..], name)
  }

  /** The first property of the name has the value. */
  ghost predicate HasValue(props: seq<Property>, name: seq<byte>, value: seq<byte>) {
    FirstNamed(props, name) < |props| && props[FirstNamed(props, name)].value == value
  }

  function PutProp(props: seq<Property>, name: seq<byte>, value: seq<byte>): seq<Property> {
    var k := FirstNamed(props, name);
    if k < |props| then props[k := Property(name, value)] else [Property(name, value)] + props
  }

  function AppendProp(props: seq<Property>, name: seq<byte>, value: seq<byte>): seq<Property> {
    var k := FirstNamed(props, name);
    if k < |props| then props[k := Property(name, props[k].value + value)] else [Property(name, value)] + props
  }

  function DropProp(props: seq<Property>, name: seq<byte>): seq<Property>
    requires FirstNamed(props, name) < |props|
  {
    props[..FirstNamed(props, name)] + props[FirstNamed(props, name) + 1..]
  }

  lemma FirstNamedIs(props: seq<Property>, name: seq<byte>, k: nat)
    requires k <= |props| && (k < |props| ==> props[k].name == name)
    requires forall i :: 0 <= i < k ==> props[i].name != name
    ensures FirstNamed(props, name) == k
  {
  }

  /** After a property is put, a reader finds the new value under its name and the old values under all others. */
  lemma PutIsRead(props: seq<Property>, name: seq<byte>, value: seq<byte>, other: seq<byte>, v: seq<byte>)
    ensures HasValue(PutProp(props, name, value), name, value)
    ensures other != name ==> (HasValue(PutProp(props, name, value), other, v) <==> HasValue(props, other, v))
  {
    var k, o, new' := FirstNamed(props, name), FirstNamed(props, other), PutProp(props, name, value);
    if k < |props| {
      FirstNamedIs(new', name, k);
      if other != name { FirstNamedIs(new', other, o); }
    } else {
      FirstNamedIs(new', name, 0);
      if other != name { FirstNamedIs(new', other, o + 1); }
    }
  }

  ghost predicate DistinctNames(props: seq<Property>) {
    forall i, j :: 0 <= i < j < |props| ==> props[i].name != props[j].name
  }

  lemma DroppedAt(props: seq<Property>, name: seq<byte>, i: int)
    requires FirstNamed(props, name) < |props| && 0 <= i < |props| - 1
    ensures |DropProp(props, name)| == |props| - 1
    ensures DropProp(props, name)[i] == props[if i < FirstNamed(props, name) then i else i + 1]
  {
  }

  /** After a property is dropped, with distinct names, a reader does not find its name, and finds all others as
      before. */
  lemma DropIsRead(props: seq<Property>, name: seq<byte>, other: seq<byte>, v: seq<byte>)
    requires FirstNamed(props, name) < |props| && DistinctNames(props)
    ensures FirstNamed(DropProp(props, name), name) == |DropProp(props, name)|
    ensures other != name ==> (HasValue(DropProp(props, name), other, v) <==> HasValue(props, other, v))
  {
    DropMisses(props, name);
    if other != name { DropKeeps(props, name, other); }
  }

  lemma DropMisses(props: seq<Property>, name: seq<byte>)
    requires FirstNamed(props, name) < |props| && DistinctNames(props)
    ensures FirstNamed(DropProp(props, name), name) == |DropProp(props, name)|
  {
    var new' := DropProp(props, name);
    forall i | 0 <= i < |new'| ensures new'[i].name != name { DroppedAt(props, name, i); }
    FirstNamedIs(new', name, |new'|);
  }

  lemma DropKeeps(props: seq<Property>, name: seq<byte>, other: seq<byte>)
    requires FirstNamed(props, name) < |props| && other != name
    ensures var k, o, new' := FirstNamed(props, name), FirstNamed(props, other), DropProp(props, name);
      FirstNamed(new', other) == (if o < k then o else o - 1)
        && (o < |props| ==> new'[FirstNamed(new', other)] == props[o])
  {
    var k, o, new' := FirstNamed(props, name), FirstNamed(props, other), DropProp(props, name);
    var m := if o < k then o else o - 1;
    forall i | 0 <= i < m ensures new'[i].name != other { DroppedAt(props, name, i); }
    if o < |props| { DroppedAt(props, name, m); }
    FirstNamedIs(new', other, m);
  }

  // ---------------------------------------------------------------- from items to meaning

  function Count(items: seq<Item>): nat {
    if items == [] then 0 else (if items[0].ChildItem? then 1 else 0) + Count(items[1..])
  }

  lemma {:induction false} CountIsChildren(items: seq<Item>, strings: seq<byte>)
    requires NamesOk(strings, FlattenItems(items))
    ensures Count(items) == |Children(items, strings)|
  {
    if items != [] {
      HeadIsOk(items, strings);
      CountIsChildren(items[1..], strings);
    }
  }

  /** The path of a node in the meaning of the tree. */
  function ViewPath(root: Node, p: seq<nat>): seq<nat>
    requires IsPath(root, p)
    decreases |p|
  {
    if p == [] then [] else [Count(root.items[..p[0]])] + ViewPath(root.items[p[0]].node, p[1..])
  }

  lemma SplitIsOk(items: seq<Item>, k: int, strings: seq<byte>)
    requires NamesOk(strings, FlattenItems(items)) && 0 <= k < |items|
    ensures NamesOk(strings, FlattenItems(items[..k])) && NamesOk(strings, FlattenItem(items[k]))
    ensures NamesOk(strings, FlattenItems(items[k + 1..]))
  {
    var a, x, c := items[..k], items[k], items[k + 1..];
    FlattenOne(x);
    CutAround(items, k);
    MiddleIsOk(a, [x], c, strings);
  }

  lemma MiddleIsOk(a: seq<Item>, mid: seq<Item>, c: seq<Item>, strings: seq<byte>)
    requires NamesOk(strings, FlattenItems(a + mid + c))
    ensures NamesOk(strings, FlattenItems(a)) && NamesOk(strings, FlattenItems(mid))
    ensures NamesOk(strings, FlattenItems(c))
  {
    FlattenMiddle(a, mid, c);
    NamesConcat(strings, FlattenItems(a) + FlattenItems(mid), FlattenItems(c));
    NamesConcat(strings, FlattenItems(a), FlattenItems(mid));
  }

  /** The meaning of items with a stretch in the middle. */
  lemma MiddleMeans(a: seq<Item>, mid: seq<Item>, c: seq<Item>, strings: seq<byte>)
    requires NamesOk(strings, FlattenItems(a)) && NamesOk(strings, FlattenItems(mid))
    requires NamesOk(strings, FlattenItems(c))
    ensures NamesOk(strings, FlattenItems(a + mid + c))
    ensures Props(a + mid + c, strings) == Props(a, strings) + Props(mid, strings) + Props(c, strings)
    ensures Children(a + mid + c, strings) == Children(a, strings) + Children(mid, strings) + Children(c, strings)
  {
    PropsConcat(a, mid, strings);
    PropsConcat(a + mid, c, strings);
    ChildrenConcat(a, mid, strings);
    ChildrenConcat(a + mid, c, strings);
  }

  lemma OneMeans(item: Item, strings: seq<byte>)
    requires NamesOk(strings, FlattenItem(item))
    ensures NamesOk(strings, FlattenItems([item]))
    ensures Props([item], strings) == PropOf(item, strings) && Children([item], strings) == ChildOf(item, strings)
  {
    FlattenOne(item);
    assert [item][1..] == [];
  }

  lemma ChildMeans(items: seq<Item>, k: int, n: Node, strings: seq<byte>)
    requires NamesOk(strings, FlattenItems(items)) && 0 <= k < |items| && items[k].ChildItem?
    requires NamesOk(strings, Flatten(n)) && NamesOk(strings, FlattenItem(items[k]))
    ensures NamesOk(strings, FlattenItems(items[k := ChildItem(n)]))
    ensures Props(items[k := ChildItem(n)], strings) == Props(items, strings)
    ensures Count(items[..k]) < |Children(items, strings)|
    ensures Children(items, strings)[Count(items[..k])] == ViewOf(items[k].node, strings)
    ensures Children(items[k := ChildItem(n)], strings)
      == Children(items, strings)[Count(items[..k]) := ViewOf(n, strings)]
  {
    SplitIsOk(items, k, strings);
    CutAround(items, k);
    UpdateIsCut(items, k, ChildItem(n));
    ChildBetween(items[..k], items[k].node, items[k + 1..], strings);
    ChildBetween(items[..k], n, items[k + 1..], strings);
  }

  lemma ChildBetween(a: seq<Item>, n: Node, c: seq<Item>, strings: seq<byte>)
    requires NamesOk(strings, FlattenItems(a)) && NamesOk(strings, Flatten(n)) && NamesOk(strings, FlattenItems(c))
    ensures NamesOk(strings, FlattenItems(a + [ChildItem(n)] + c)) && Count(a) == |Children(a, strings)|
    ensures Props(a + [ChildItem(n)] + c, strings) == Props(a, strings) + Props(c, strings)
    ensures Children(a + [ChildItem(n)] + c, strings)
      == Children(a, strings) + [ViewOf(n, strings)] + Children(c, strings)
  {
    OneChildMeans(n, strings);
    MiddleMeans(a, [ChildItem(n)], c, strings);
    NothingBetween(Props(a, strings), Props(c, strings));
    CountIsChildren(a, strings);
  }

  lemma OneChildMeans(n: Node, strings: seq<byte>)
    requires NamesOk(strings, Flatten(n))
    ensures NamesOk(strings, FlattenItems([ChildItem(n)]))
    ensures Props([ChildItem(n)], strings) == [] && Children([ChildItem(n)], strings) == [ViewOf(n, strings)]
  {
    OneMeans(ChildItem(n), strings);
  }

  /** Replacing a node in the items replaces its meaning, and nothing else of the meaning. */
  lemma {:induction false} ViewReplace(root: Node, p: seq<nat>, n: Node, strings: seq<byte>)
    requires IsPath(root, p) && NamesOk(strings, Flatten(root)) && NamesOk(strings, Flatten(n))
    ensures NamesOk(strings, Flatten(Replace(root, p, n))) && NamesOk(strings, Flatten(NodeAt(root, p)))
    ensures IsViewPath(ViewOf(root, strings), ViewPath(root, p))
    ensures ViewAt(ViewOf(root, strings), ViewPath(root, p)) == ViewOf(NodeAt(root, p), strings)
    ensures ViewOf(Replace(root, p, n), strings)
            == ReplaceView(ViewOf(root, strings), ViewPath(root, p), ViewOf(n, strings))
    decreases |p|
  {
    if p != [] {
      var k := p[0];
      var sub := root.items[k].node;
      ItemsAreOk(root, strings);
      SplitIsOk(root.items, k, strings);
      ViewReplace(sub, p[1..], n, strings);
      ChildMeans(root.items, k, Replace(sub, p[1..], n), strings);
      NodeIsOk(Replace(root, p, n), strings);
    }
  }

  lemma NodeIsOk(n: Node, strings: seq<byte>)
    requires NamesOk(strings, FlattenItems(n.items))
    ensures NamesOk(strings, Flatten(n))
  {
    NamesConcat(strings, [Begin(n.name, n.pad)], FlattenItems(n.items));
    NamesConcat(strings, [Begin(n.name, n.pad)] + FlattenItems(n.items), [EndNode]);
  }
}
