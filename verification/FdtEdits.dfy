/**
 What exchanging items of a node does to the meaning of the node and of the tree.
 */
module FdtEdits {
  import opened Seqs
  import opened FdtFormat
  import opened FdtTree
  import opened FdtView
  import opened FdtScan
  import opened FdtSplice

  // ---------------------------------------------------------------- properties stay before subnodes

  lemma {:induction false} OrderedReplace(root: Node, p: seq<nat>, n: Node)
    requires IsPath(root, p) && Ordered(root) && Ordered(n)
    ensures Ordered(Replace(root, p, n)) && Ordered(NodeAt(root, p))
    decreases |p|
  {
    if p != [] {
      OrderedReplace(root.items[p[0]].node, p[1..], n);
      var items := Replace(root, p, n).items;
      forall i, j | 0 <= i < j < |items| && items[i].ChildItem? ensures !items[j].PropItem? {
        assert root.items[i].ChildItem?;
      }
    }
  }

  /** Leading properties and no-ops. */
  ghost predicate NoChild(items: seq<Item>) { forall i :: 0 <= i < |items| ==> !items[i].ChildItem? }

  ghost predicate NoPropIn(items: seq<Item>) { forall i :: 0 <= i < |items| ==> !items[i].PropItem? }

  ghost predicate ChildrenOrdered(items: seq<Item>) {
    forall i :: 0 <= i < |items| && items[i].ChildItem? ==> Ordered(items[i].node)
  }

  /** The exchanged items fit: no subnode goes before a property. */
  ghost predicate FitsOrder(n: Node, k: int, l: int, mid: seq<Item>)
    requires 0 <= k <= l <= |n.items|
  {
    KeepsOrder(n, k, l, mid) == true
  }

  ghost predicate KeepsOrder(n: Node, k: int, l: int, mid: seq<Item>)
    requires 0 <= k <= l <= |n.items|
  {
    && PropsFirst(mid) && ChildrenOrdered(mid)
    && (NoPropIn(mid) || NoChild(n.items[..k])) && (NoChild(mid) || NoPropIn(n.items[l..]))
  }

  lemma PropsFirstConcat(a: seq<Item>, b: seq<Item>)
    requires PropsFirst(a) && PropsFirst(b) && (NoChild(a) || NoPropIn(b))
    ensures PropsFirst(a + b)
  {
    var items := a + b;
    forall i, j | 0 <= i < j < |items| && items[i].ChildItem? ensures !items[j].PropItem? {
      assert items[i] == if i < |a| then a[i] else b[i - |a|];
      assert items[j] == if j < |a| then a[j] else b[j - |a|];
    }
  }

  lemma ChildrenOrderedConcat(a: seq<Item>, b: seq<Item>)
    requires ChildrenOrdered(a) && ChildrenOrdered(b)
    ensures ChildrenOrdered(a + b)
  {
  }

  /** Parts of ordered items. */
  lemma OrderedParts(n: Node, k: int, l: int)
    requires Ordered(n) && 0 <= k <= l <= |n.items|
    ensures PropsFirst(n.items[..k]) && PropsFirst(n.items[l..]) && (NoChild(n.items[..k]) || NoPropIn(n.items[l..]))
    ensures ChildrenOrdered(n.items[..k]) && ChildrenOrdered(n.items[l..])
  {
    var a, c := n.items[..k], n.items[l..];
    assert forall i :: 0 <= i < |a| ==> a[i] == n.items[i];
    forall i, j | 0 <= i < j < |c| && c[i].ChildItem? ensures !c[j].PropItem? {
      assert c[i] == n.items[l + i] && c[j] == n.items[l + j];
    }
    if !NoChild(a) {
      var i :| 0 <= i < |a| && a[i].ChildItem?;
      forall j | 0 <= j < |c| ensures !c[j].PropItem? { assert c[j] == n.items[l + j] && n.items[i].ChildItem?; }
    }
    forall i | 0 <= i < |c| && c[i].ChildItem? ensures Ordered(c[i].node) { assert c[i] == n.items[l + i]; }
  }

  lemma OrderedWithItems(n: Node, k: int, l: int, mid: seq<Item>)
    requires Ordered(n) && 0 <= k <= l <= |n.items| && FitsOrder(n, k, l, mid)
    ensures Ordered(WithItems(n, k, l, mid))
  {
    var a, c := n.items[..k], n.items[l..];
    OrderedParts(n, k, l);
    PropsFirstConcat(a, mid);
    ChildrenOrderedConcat(a, mid);
    NoneInConcat(a, mid, c);
    PropsFirstConcat(a + mid, c);
    ChildrenOrderedConcat(a + mid, c);
  }

  lemma NoneInConcat(a: seq<Item>, mid: seq<Item>, c: seq<Item>)
    requires (NoPropIn(mid) || NoChild(a)) && (NoChild(mid) || NoPropIn(c)) && (NoChild(a) || NoPropIn(c))
    ensures NoChild(a + mid) || NoPropIn(c)
  {
  }

  /** A property has no subnode before it. */
  lemma BeforeProp(n: Node, k: int)
    requires Ordered(n) && 0 <= k < |n.items| && n.items[k].PropItem?
    ensures NoChild(n.items[..k])
  {
    forall i | 0 <= i < k ensures !n.items[..k][i].ChildItem? { assert n.items[..k][i] == n.items[i]; }
  }

  // ---------------------------------------------------------------- the node's new meaning

  ghost predicate ItemsOk(strings: seq<byte>, n: Node) { NamesOk(strings, FlattenItems(n.items)) }

  /** The meaning of a node with items exchanged. */
  lemma WithItemsMeans(n: Node, k: int, l: int, mid: seq<Item>, strings: seq<byte>)
    requires 0 <= k <= l <= |n.items| && ItemsOk(strings, n) && NamesOk(strings, FlattenItems(mid))
    ensures NamesOk(strings, FlattenItems(n.items[..k])) && NamesOk(strings, FlattenItems(n.items[k..l]))
    ensures NamesOk(strings, FlattenItems(n.items[l..])) && ItemsOk(strings, WithItems(n, k, l, mid))
    ensures Props(n.items, strings)
            == Props(n.items[..k], strings) + Props(n.items[k..l], strings) + Props(n.items[l..], strings)
    ensures Children(n.items, strings)
            == Children(n.items[..k], strings) + Children(n.items[k..l], strings) + Children(n.items[l..], strings)
    ensures Props(WithItems(n, k, l, mid).items, strings)
            == Props(n.items[..k], strings) + Props(mid, strings) + Props(n.items[l..], strings)
    ensures Children(WithItems(n, k, l, mid).items, strings)
            == Children(n.items[..k], strings) + Children(mid, strings) + Children(n.items[l..], strings)
  {
    var a, b, c := n.items[..k], n.items[k..l], n.items[l..];
    assert n.items == a + b + c;
    MiddleIsOk(a, b, c, strings);
    MiddleMeans(a, b, c, strings);
    MiddleMeans(a, mid, c, strings);
  }

  lemma PropMeans(item: Item, strings: seq<byte>)
    requires item.PropItem? && NameOk(strings, item.nameoff)
    ensures NamesOk(strings, FlattenItems([item]))
    ensures Props([item], strings) == [Property(StringAt(strings, item.nameoff), item.value)]
    ensures Children([item], strings) == []
  {
    OneMeans(item, strings);
  }

  /** The properties around the first one of a name. */
  lemma PropSplit(n: Node, strings: seq<byte>, name: seq<byte>, k: nat, a: seq<Property>, c: seq<Property>)
    requires ItemsOk(strings, n) && PropsFirst(n.items) && k == FirstProp(n.items, strings, name) < |n.items|
    requires NamesOk(strings, FlattenItems(n.items[..k])) && NamesOk(strings, FlattenItems(n.items[k..k + 1]))
    requires NamesOk(strings, FlattenItems(n.items[k + 1..]))
    requires a == Props(n.items[..k], strings) && c == Props(n.items[k + 1..], strings)
    ensures NameOk(strings, n.items[k].nameoff) && StringAt(strings, n.items[k].nameoff) == name
    ensures Props(n.items[k..k + 1], strings) == [Property(name, n.items[k].value)]
    ensures Children(n.items[k..k + 1], strings) == []
    ensures FirstNamed(Props(n.items, strings), name) == |a|
  {
    FirstPropMeans(n.items, strings, name);
    FoundName(n.items, strings, name);
    PropMeans(n.items[k], strings);
    CutAround(n.items, k);
  }

  /** Exchanging the first property of a name. */
  lemma PutMeans(n: Node, strings: seq<byte>, name: seq<byte>, k: nat, value: seq<byte>, pad: seq<byte>)
    requires ItemsOk(strings, n) && PropsFirst(n.items) && k == FirstProp(n.items, strings, name) < |n.items|
    ensures var m := WithItems(n, k, k + 1, [PropItem(n.items[k].nameoff, value, pad)]);
      var props, f := Props(n.items, strings), FirstNamed(Props(n.items, strings), name);
      && f < |props| && props[f] == Property(name, n.items[k].value)
      && ItemsOk(strings, m)
      && Props(m.items, strings) == props[f := Property(name, value)]
      && Children(m.items, strings) == Children(n.items, strings)
  {
    var item := PropItem(n.items[k].nameoff, value, pad);
    FoundName(n.items, strings, name);
    PropMeans(item, strings);
    WithItemsMeans(n, k, k + 1, [item], strings);
    var a, c := Props(n.items[..k], strings), Props(n.items[k + 1..], strings);
    PropSplit(n, strings, name, k, a, c);
    Exchange(a, Property(name, n.items[k].value), c, Property(name, value));
  }

  lemma DropAt(a: seq<Property>, p: Property, c: seq<Property>)
    requires FirstNamed(a + [p] + c, p.name) == |a|
    ensures DropProp(a + [p] + c, p.name) == a + [] + c
  {
    Exchange(a, p, c, p);
  }

  /** Taking the first property of a name away, for nothing or for no-ops. */
  lemma DropMeans(n: Node, strings: seq<byte>, name: seq<byte>, k: nat, mid: seq<Item>)
    requires ItemsOk(strings, n) && PropsFirst(n.items) && k == FirstProp(n.items, strings, name) < |n.items|
    requires AllNops(mid)
    ensures var m := WithItems(n, k, k + 1, mid);
      && ItemsOk(strings, m)
      && FirstNamed(Props(n.items, strings), name) < |Props(n.items, strings)|
      && Props(m.items, strings) == DropProp(Props(n.items, strings), name)
      && Children(m.items, strings) == Children(n.items, strings)
  {
    NopsMean(mid, strings);
    WithItemsMeans(n, k, k + 1, mid, strings);
    var a, c := Props(n.items[..k], strings), Props(n.items[k + 1..], strings);
    PropSplit(n, strings, name, k, a, c);
    DropAt(a, Property(name, n.items[k].value), c);
    assert Children(n.items, strings) == Children(n.items[..k], strings) + Children(mid, strings)
      + Children(n.items[k + 1..], strings);
  }

  ghost predicate AllNops(mid: seq<Item>) { forall i :: 0 <= i < |mid| ==> mid[i].NopItem? }

  lemma {:induction false} NopsMean(mid: seq<Item>, strings: seq<byte>)
    requires AllNops(mid)
    ensures NamesOk(strings, FlattenItems(mid)) && Props(mid, strings) == [] && Children(mid, strings) == []
    ensures AllOk(FlattenItems(mid)) && FlattenItems(mid) == seq(|mid|, i => Nop)
  {
    if mid != [] {
      NopsMean(mid[1..], strings);
      assert FlattenItem(mid[0]) == [Nop];
      assert seq(|mid|, i => Nop) == [Nop] + seq(|mid| - 1, i => Nop);
    }
  }

  /** A property put in front. */
  lemma FrontMeans(n: Node, item: Item, strings: seq<byte>)
    requires ItemsOk(strings, n) && item.PropItem? && NameOk(strings, item.nameoff)
    ensures var m := WithItems(n, 0, 0, [item]);
      && ItemsOk(strings, m)
      && Props(m.items, strings) == [Property(StringAt(strings, item.nameoff), item.value)] + Props(n.items, strings)
      && Children(m.items, strings) == Children(n.items, strings)
  {
    PropMeans(item, strings);
    assert n.items[..0] == [] && n.items[0..0] == [] && n.items[0..] == n.items;
    WithItemsMeans(n, 0, 0, [item], strings);
  }

  lemma {:induction false} NoChildMeans(items: seq<Item>, strings: seq<byte>)
    requires NamesOk(strings, FlattenItems(items)) && NoChild(items)
    ensures Children(items, strings) == []
  {
    if items != [] {
      HeadIsOk(items, strings);
      NoChildMeans(items[1..], strings);
    }
  }

  /** A new node after the properties is the first subnode. */
  lemma SubnodeMeans(n: Node, m: Node, strings: seq<byte>, k: nat)
    requires ItemsOk(strings, n) && NamesOk(strings, Flatten(m)) && k == FirstChild(n.items)
    ensures var n' := WithItems(n, k, k, [ChildItem(m)]);
      && ItemsOk(strings, n')
      && Props(n'.items, strings) == Props(n.items, strings)
      && Children(n'.items, strings) == [ViewOf(m, strings)] + Children(n.items, strings)
  {
    OneMeans(ChildItem(m), strings);
    WithItemsMeans(n, k, k, [ChildItem(m)], strings);
    assert n.items[k..k] == [];
    NoChildMeans(n.items[..k], strings);
    assert Props([ChildItem(m)], strings) == [];
  }

  /** A subnode taken away, for nothing or for no-ops. */
  lemma RemoveMeans(n: Node, k: nat, mid: seq<Item>, strings: seq<byte>)
    requires ItemsOk(strings, n) && k < |n.items| && n.items[k].ChildItem?
    requires AllNops(mid)
    ensures var m := WithItems(n, k, k + 1, mid);
      var c := Count(n.items[..k]);
      && ItemsOk(strings, m) && c < |Children(n.items, strings)|
      && Props(m.items, strings) == Props(n.items, strings)
      && Children(m.items, strings) == Children(n.items, strings)[..c] + Children(n.items, strings)[c + 1..]
  {
    NopsMean(mid, strings);
    WithItemsMeans(n, k, k + 1, mid, strings);
    SplitIsOk(n.items, k, strings);
    OneMeans(n.items[k], strings);
    CutAround(n.items, k);
    CountIsChildren(n.items[..k], strings);
    var a, c := Children(n.items[..k], strings), Children(n.items[k + 1..], strings);
    Exchange(a, ViewOf(n.items[k].node, strings), c, ViewOf(n.items[k].node, strings));
    NothingBetween(a, c);
  }

  /** Some subnode is called so. */
  ghost predicate AnyMatch(children: seq<View>, name: seq<byte>) {
    exists c :: 0 <= c < |children| && Called(children[c].name, name)
  }

  lemma NameMeans(n: Node, strings: seq<byte>)
    requires NamesOk(strings, Flatten(n))
    ensures ViewOf(n, strings).name == n.name
  {
  }

  /** In terms of the meaning: a subnode is found exactly when some child's name matches. */
  lemma {:induction false} MatchMeans(items: seq<Item>, strings: seq<byte>, name: seq<byte>)
    requires NamesOk(strings, FlattenItems(items))
    ensures FirstMatch(items, Named(name)) < |items| <==> AnyMatch(Children(items, strings), name)
    decreases items
  {
    if items != [] {
      HeadIsOk(items, strings);
      MatchMeans(items[1..], strings, name);
      var first, rest := ChildOf(items[0], strings), Children(items[1..], strings);
      if AnyMatch(rest, name) {
        var c :| 0 <= c < |rest| && Called(rest[c].name, name);
        assert (first + rest)[|first| + c] == rest[c];
      }
      if items[0].ChildItem? {
        NameMeans(items[0].node, strings);
        MatchIsCalled(items[0].node.name, name);
        assert (first + rest)[0] == ViewOf(items[0].node, strings);
      }
      if AnyMatch(first + rest, name) {
        var c :| 0 <= c < |first + rest| && Called((first + rest)[c].name, name);
        assert c >= |first| ==> rest[c - |first|] == (first + rest)[c];
      }
    }
  }
}
