/**
 The editor's view of a blob: a structure block and a strings block that hold a tree with a given
 meaning, and what each edit of the bytes makes of it.
 */
module FdtHolding {
  import opened Seal
  import opened Options
  import opened FdtFormat
  import opened FdtBytes
  import opened FdtTree
  import opened FdtView
  import opened FdtScan
  import opened FdtRead
  import opened FdtSplice
  import opened FdtEdits
  import opened FdtLookup
  import opened FdtChange

  /** The blocks hold the tree, and it means view. */
  ghost predicate Holding(s: seq<byte>, strings: seq<byte>, root: Node, view: View) {
    HoldsTree(s, strings, root, view) == true
  }

  ghost predicate HoldsTree(s: seq<byte>, strings: seq<byte>, root: Node, view: View) {
    forall key: Key :: Opens(key) && key == OfHolding ==> TreeOk(s, strings, root) && ViewOf(root, strings) == view
  }

  /** The offset argument, if it passes the check, is that of the node at path p. */
  ghost predicate Argument(s: seq<byte>, root: Node, p: seq<nat>, off: int) {
    forall key: Key :: Opens(key) && key == OfPlace ==> NodeArg(s, root, p, off)
  }

  /** The place of the node in the meaning. */
  ghost function Place(root: Node, p: seq<nat>): seq<nat> {
    if IsPath(root, p) then ViewPath(root, p) else []
  }

  /** Item k of the node at p is the first property of the name, and stands at offset r. */
  ghost predicate IsFound(s: seq<byte>, strings: seq<byte>, root: Node, p: seq<nat>, name: seq<byte>, k: nat,
                          item: Item, r: int) {
    FoundItem(s, strings, root, p, name, k, item, r) == true
  }

  ghost predicate FoundItem(s: seq<byte>, strings: seq<byte>, root: Node, p: seq<nat>, name: seq<byte>, k: nat,
                            item: Item, r: int) {
    && PropHere(s, r, item)
    && forall key: Key :: Opens(key) && key == OfPlace ==>
         && PropAt(s, root, p, k, r) && item == NodeAt(root, p).items[k] && ItemsOk(strings, NodeAt(root, p))
         && k == FirstProp(NodeAt(root, p).items, strings, name)
  }

  /** The node at p has no property of the name. */
  ghost predicate IsMissing(view: View, q: seq<nat>, name: seq<byte>) {
    IsViewPath(view, q) && FirstNamed(ViewAt(view, q).props, name) == |ViewAt(view, q).props|
  }

  lemma MissingMeans(s: seq<byte>, strings: seq<byte>, root: Node, p: seq<nat>, name: seq<byte>)
    requires TreeOk(s, strings, root) && IsPath(root, p) && ItemsOk(strings, NodeAt(root, p))
    requires FirstProp(NodeAt(root, p).items, strings, name) == |NodeAt(root, p).items|
    ensures IsMissing(ViewOf(root, strings), Place(root, p), name)
  {
    OpenTree(s, strings, root);
    NoneMeans(strings, root, p, name);
  }

  /** fdt_get_property, in terms of the meaning. */
  method FindIn(s: seq<byte>, strings: seq<byte>, off: int, name: seq<byte>, ghost root: Node, ghost view: View,
                ghost p: seq<nat>)
    returns (r: int, ghost k: nat, ghost item: Item)
    requires Holding(s, strings, root, view) && Argument(s, root, p, off)
    ensures r >= 0 ==> IsFound(s, strings, root, p, name, k, item, r)
    ensures CheckNode(s, off) < 0 ==> r == ERR_BADOFFSET
    ensures CheckNode(s, off) >= 0 && r < 0 ==> r == ERR_NOTFOUND && IsMissing(view, Place(root, p), name)
  {
    assert Opens(OfHolding);
    assert Opens(OfPlace);
    item := NopItem;
    r, k := LookupProperty(s, strings, off, name, root, p);
    if r >= 0 {
      item := NodeAt(root, p).items[k];
    } else if r == ERR_NOTFOUND {
      MissingMeans(s, strings, root, p, name);
    }
  }

  lemma OpenFound(s: seq<byte>, strings: seq<byte>, root: Node, view: View, p: seq<nat>, name: seq<byte>, k: nat,
                  item: Item, r: int)
    requires Holding(s, strings, root, view) && IsFound(s, strings, root, p, name, k, item, r)
    ensures TreeOk(s, strings, root) && ViewOf(root, strings) == view
    ensures PropAt(s, root, p, k, r) && item == NodeAt(root, p).items[k] && ItemsOk(strings, NodeAt(root, p))
    ensures k == FirstProp(NodeAt(root, p).items, strings, name)
  {
    assert Opens(OfHolding);
    assert Opens(OfPlace);
  }

  lemma MakeHolding(s: seq<byte>, strings: seq<byte>, root: Node)
    requires TreeOk(s, strings, root)
    ensures Holding(s, strings, root, ViewOf(root, strings))
  {
  }

  // ---------------------------------------------------------------- the edits, in terms of the meaning

  /** w is v with the first property of the name given the value, or a new property put in front. */
  ghost predicate IsPut(v: View, q: seq<nat>, name: seq<byte>, value: seq<byte>, w: View) {
    IsViewPath(v, q) && w == WithProps(v, q, PutProp(ViewAt(v, q).props, name, value))
  }

  ghost predicate IsAppended(v: View, q: seq<nat>, name: seq<byte>, value: seq<byte>, w: View) {
    IsViewPath(v, q) && w == WithProps(v, q, AppendProp(ViewAt(v, q).props, name, value))
  }

  ghost predicate IsDropped(v: View, q: seq<nat>, name: seq<byte>, w: View) {
    && IsViewPath(v, q) && FirstNamed(ViewAt(v, q).props, name) < |ViewAt(v, q).props|
    && w == WithProps(v, q, DropProp(ViewAt(v, q).props, name))
  }

  ghost predicate IsGrown(v: View, q: seq<nat>, name: seq<byte>, w: View) {
    IsViewPath(v, q) && w == WithChildren(v, q, [View(name, [], [])] + ViewAt(v, q).children)
  }

  /** w is v without child c of the node at q. */
  ghost predicate IsPruned(v: View, q: seq<nat>, c: nat, w: View) {
    && IsViewPath(v, q) && c < |ViewAt(v, q).children|
    && w == WithChildren(v, q, ViewAt(v, q).children[..c] + ViewAt(v, q).children[c + 1..])
  }

  /** w is v without the node at place q, which is not the root. */
  ghost predicate IsGone(v: View, q: seq<nat>, w: View) {
    q != [] && IsPruned(v, q[..|q| - 1], q[|q| - 1], w)
  }

  ghost predicate IsRenamed(v: View, q: seq<nat>, name: seq<byte>, w: View) {
    IsViewPath(v, q) && w == ReplaceView(v, q, ViewAt(v, q).(name := name))
  }

  lemma RewriteMeans(s: seq<byte>, strings: seq<byte>, root: Node, p: seq<nat>, name: seq<byte>, k: nat, new': Item)
    requires TreeOk(s, strings, root) && IsPath(root, p) && ItemsOk(strings, NodeAt(root, p))
    requires k == FirstProp(NodeAt(root, p).items, strings, name) < |NodeAt(root, p).items|
    requires new'.PropItem? && new'.nameoff == NodeAt(root, p).items[k].nameoff
    ensures NamesOk(strings, Flatten(Edited(root, p, k, k + 1, [new'])))
    ensures IsPut(ViewOf(root, strings), Place(root, p), name, new'.value,
      ViewOf(Edited(root, p, k, k + 1, [new']), strings))
  {
    OpenTree(s, strings, root);
    SetMeans(strings, root, p, k, name, new');
  }

  /** The property found has the value of the first property of the name. */
  lemma FoundValue(s: seq<byte>, strings: seq<byte>, root: Node, view: View, p: seq<nat>, name: seq<byte>, k: nat,
                   item: Item, r: int)
    requires Holding(s, strings, root, view) && IsFound(s, strings, root, p, name, k, item, r)
    ensures IsViewPath(view, Place(root, p))
    ensures var props := ViewAt(view, Place(root, p)).props;
      FirstNamed(props, name) < |props| && props[FirstNamed(props, name)] == Property(name, item.value)
  {
    OpenFound(s, strings, root, view, p, name, k, item, r);
    OpenTree(s, strings, root);
    SetMeans(strings, root, p, k, name, item);
  }

  lemma PutIsAppend(v: View, q: seq<nat>, name: seq<byte>, value: seq<byte>, more: seq<byte>, w: View)
    requires IsPut(v, q, name, value + more, w)
    requires var props := ViewAt(v, q).props;
      FirstNamed(props, name) < |props| && props[FirstNamed(props, name)] == Property(name, value)
    ensures IsAppended(v, q, name, more, w)
  {
  }

  /** The property found was given more value at its end. */
  lemma FinishAppend(s: seq<byte>, strings: seq<byte>, root: Node, view: View, p: seq<nat>, name: seq<byte>, k: nat,
                     item: Item, r: int,
                     more: seq<byte>, pad: seq<byte>, t: seq<byte>) returns (root': Node, view': View)
    requires Holding(s, strings, root, view) && IsFound(s, strings, root, p, name, k, item, r)
    requires PropWritten(s, r, r + 12 + |item.value| + |item.pad|, t, item.nameoff, item.value + more, pad)
    ensures Holding(t, strings, root', view') && IsAppended(view, Place(root, p), name, more, view')
  {
    FoundValue(s, strings, root, view, p, name, k, item, r);
    root', view' := FinishRewrite(s, strings, root, view, p, name, k, item, r, r + 12 + |item.value| + |item.pad|,
                                   PropItem(item.nameoff, item.value + more, pad), t);
    PutIsAppend(view, Place(root, p), name, item.value, more, view');
  }

  /** The property found was rewritten with another value. */
  lemma FinishRewrite(s: seq<byte>, strings: seq<byte>, root: Node, view: View, p: seq<nat>, name: seq<byte>, k: nat,
                      item: Item, r: int,
                      end: int, new': Item, t: seq<byte>) returns (root': Node, view': View)
    requires Holding(s, strings, root, view) && IsFound(s, strings, root, p, name, k, item, r)
    requires new'.PropItem? && new'.nameoff == item.nameoff && end == r + 12 + |item.value| + |item.pad|
    requires PropWritten(s, r, end, t, new'.nameoff, new'.value, new'.pad)
    ensures Holding(t, strings, root', view') && IsPut(view, Place(root, p), name, new'.value, view')
  {
    OpenFound(s, strings, root, view, p, name, k, item, r);
    root', view' := FinishOpened(s, strings, root, p, name, k, r, end, new', t);
  }

  lemma FinishOpened(s: seq<byte>, strings: seq<byte>, root: Node, p: seq<nat>, name: seq<byte>, k: nat, r: int,
                     end: int, new': Item, t: seq<byte>)
    returns (root': Node, view': View)
    requires TreeOk(s, strings, root) && PropAt(s, root, p, k, r) && ItemsOk(strings, NodeAt(root, p))
    requires k == FirstProp(NodeAt(root, p).items, strings, name)
    requires new'.PropItem? && new'.nameoff == NodeAt(root, p).items[k].nameoff
    requires var o := NodeAt(root, p).items[k]; end == r + 12 + |o.value| + |o.pad|
    requires PropWritten(s, r, end, t, new'.nameoff, new'.value, new'.pad)
    ensures Holding(t, strings, root', view') && IsPut(ViewOf(root, strings), Place(root, p), name, new'.value, view')
  {
    RewriteMeans(s, strings, root, p, name, k, new');
    RewriteKeepsTree(s, strings, root, p, name, k, r, end, new', t);
    root' := Edited(root, p, k, k + 1, [new']);
    view' := ViewOf(root', strings);
    MakeHolding(t, strings, root');
  }

  lemma RewriteKeepsTree(s: seq<byte>, strings: seq<byte>, root: Node, p: seq<nat>, name: seq<byte>, k: nat, r: int,
                         end: int, new': Item, t: seq<byte>)
    requires TreeOk(s, strings, root) && PropAt(s, root, p, k, r) && ItemsOk(strings, NodeAt(root, p))
    requires k == FirstProp(NodeAt(root, p).items, strings, name)
    requires new'.PropItem? && new'.nameoff == NodeAt(root, p).items[k].nameoff
    requires var o := NodeAt(root, p).items[k]; end == r + 12 + |o.value| + |o.pad|
    requires PropWritten(s, r, end, t, new'.nameoff, new'.value, new'.pad)
    ensures TreeOk(t, strings, Edited(root, p, k, k + 1, [new']))
  {
    FoundName(NodeAt(root, p).items, strings, name);
    SetKeepsTree(s, strings, root, p, k, r, end, new', t);
  }

  /** The strings block grew. */
  lemma FinishStrings(s: seq<byte>, strings: seq<byte>, more: seq<byte>, root: Node, view: View)
    requires Holding(s, strings, root, view)
    ensures Holding(s, strings + more, root, view)
  {
    assert Opens(OfHolding);
    StringsGrow(s, strings, more, root);
  }

  /** A checked offset is a node's. */
  lemma Checked(s: seq<byte>, strings: seq<byte>, root: Node, view: View, p: seq<nat>, off: int)
    requires Holding(s, strings, root, view) && Argument(s, root, p, off) && CheckNode(s, off) >= 0
    ensures TreeOk(s, strings, root) && view == ViewOf(root, strings) && IsNodeAt(root, p, off)
    ensures CheckNode(s, off) <= |s| && Aligned(CheckNode(s, off))
  {
    assert Opens(OfHolding);
    assert Opens(OfPlace);
    NodeIsLaid(s, strings, root, p, off);
    var ts := Flatten(NodeAt(root, p));
    assert LaidAt(s, ts[0], Positions(off, ts)[0], Positions(off, ts)[1]);
    assert LaidAt(s, ts[1], Positions(off, ts)[1], Positions(off, ts)[2]);
  }

  lemma CheckedWithin(s: seq<byte>, strings: seq<byte>, root: Node, view: View, p: seq<nat>, off: int)
    requires Holding(s, strings, root, view) && Argument(s, root, p, off) && CheckNode(s, off) >= 0
    ensures CheckNode(s, off) <= |s| && Aligned(CheckNode(s, off))
  {
    Checked(s, strings, root, view, p, off);
  }

  /** A property was put in front of a node's items. */
  lemma FinishAdd(s: seq<byte>, strings: seq<byte>, root: Node, view: View, p: seq<nat>, off: int, name: seq<byte>,
                  new': Item, t: seq<byte>)
    returns (root': Node, view': View)
    requires Holding(s, strings, root, view) && Argument(s, root, p, off) && CheckNode(s, off) >= 0
    requires IsMissing(view, Place(root, p), name)
    requires new'.PropItem? && NameOk(strings, new'.nameoff) && StringAt(strings, new'.nameoff) == name
    requires PropWritten(s, CheckNode(s, off), CheckNode(s, off), t, new'.nameoff, new'.value, new'.pad)
    ensures Holding(t, strings, root', view') && IsPut(view, Place(root, p), name, new'.value, view')
    ensures IsAppended(view, Place(root, p), name, new'.value, view')
  {
    Checked(s, strings, root, view, p, off);
    FirstItemAt(s, strings, root, p, off);
    AddKeepsTree(s, strings, root, p, new', t);
    AddMeans(strings, root, p, new');
    root' := Edited(root, p, 0, 0, [new']);
    view' := ViewOf(root', strings);
    MakeHolding(t, strings, root');
  }

  lemma DropMeansToo(s: seq<byte>, strings: seq<byte>, root: Node, p: seq<nat>, name: seq<byte>, k: nat, mid: seq<Item>)
    requires TreeOk(s, strings, root) && IsPath(root, p) && ItemsOk(strings, NodeAt(root, p)) && AllNops(mid)
    requires k == FirstProp(NodeAt(root, p).items, strings, name) < |NodeAt(root, p).items|
    ensures NamesOk(strings, Flatten(Edited(root, p, k, k + 1, mid)))
    ensures IsDropped(ViewOf(root, strings), Place(root, p), name, ViewOf(Edited(root, p, k, k + 1, mid), strings))
  {
    OpenTree(s, strings, root);
    DropMeansTree(strings, root, p, k, name, mid);
  }

  /** The property found was taken away, its place closed or filled with no-ops. */
  lemma FinishDrop(s: seq<byte>, strings: seq<byte>, root: Node, view: View, p: seq<nat>, name: seq<byte>, k: nat,
                   item: Item, r: int,
                   mid: seq<Item>, t: seq<byte>) returns (root': Node, view': View)
    requires Holding(s, strings, root, view) && IsFound(s, strings, root, p, name, k, item, r)
    requires AllNops(mid) && AllOk(FlattenItems(mid))
    requires Exchanged(s, r, r + 12 + |item.value| + |item.pad|, EncodeAll(FlattenItems(mid)), t)
    ensures Holding(t, strings, root', view') && IsDropped(view, Place(root, p), name, view')
  {
    OpenFound(s, strings, root, view, p, name, k, item, r);
    var end := r + 12 + |item.value| + |item.pad|;
    root', view' := FinishOut(s, strings, root, view, p, name, k, r, end, mid, t);
  }

  lemma FinishOut(s: seq<byte>, strings: seq<byte>, root: Node, view: View, p: seq<nat>, name: seq<byte>, k: nat,
                  r: int, end: int, mid: seq<Item>, t: seq<byte>)
    returns (root': Node, view': View)
    requires TreeOk(s, strings, root) && ViewOf(root, strings) == view && PropAt(s, root, p, k, r)
    requires ItemsOk(strings, NodeAt(root, p))
    requires k == FirstProp(NodeAt(root, p).items, strings, name) && AllNops(mid) && AllOk(FlattenItems(mid))
    requires var o := NodeAt(root, p).items[k]; end == r + 12 + |o.value| + |o.pad|
    requires Exchanged(s, r, end, EncodeAll(FlattenItems(mid)), t)
    ensures Holding(t, strings, root', view') && IsDropped(view, Place(root, p), name, view')
  {
    DropKeepsTree(s, strings, root, p, k, r, end, mid, t);
    DropMeansToo(s, strings, root, p, name, k, mid);
    root' := Edited(root, p, k, k + 1, mid);
    view' := ViewOf(root', strings);
    MakeHolding(t, strings, root');
  }

  /** An empty node was put after the properties of its parent. */
  lemma FinishSubnode(s: seq<byte>, strings: seq<byte>, root: Node, p: seq<nat>, k: nat, m: Node, t: seq<byte>)
    returns (root': Node, view': View)
    requires TreeOk(s, strings, root) && IsPath(root, p) && k == FirstChild(NodeAt(root, p).items)
    requires AllOk(Upto(root, p, k))
    requires m.items == [] && AllOk(Flatten(m))
    requires Exchanged(s, ItemOffset(root, p, k), ItemOffset(root, p, k), EncodeAll(Flatten(m)), t)
    ensures Holding(t, strings, root', view') && IsGrown(ViewOf(root, strings), Place(root, p), m.name, view')
    ensures IsNodeAt(root', p + [k], ItemOffset(root, p, k)) && NodeAt(root', p + [k]) == m
  {
    SubnodeKeepsTree(s, strings, root, p, k, m, t);
    SubnodeMeansTree(strings, root, p, k, m);
    root' := Edited(root, p, k, k, [ChildItem(m)]);
    view' := ViewOf(root', strings);
    MakeHolding(t, strings, root');
    NewNodePlace(root, p, k, m);
  }

  lemma NewNodePlace(root: Node, p: seq<nat>, k: nat, m: Node)
    requires IsPath(root, p) && k <= |NodeAt(root, p).items| && AllOk(Upto(root, p, k))
    ensures var root' := Edited(root, p, k, k, [ChildItem(m)]);
      IsNodeAt(root', p + [k], ItemOffset(root, p, k)) && NodeAt(root', p + [k]) == m
  {
    var n := WithItems(NodeAt(root, p), k, k, [ChildItem(m)]);
    SameBefore(root, p, n);
    assert n.items[k] == ChildItem(m) && n.items[..k] == NodeAt(root, p).items[..k];
    SubPath(Edited(root, p, k, k, [ChildItem(m)]), p, k);
  }

  lemma {:induction false} SameBefore(root: Node, p: seq<nat>, n: Node)
    requires IsPath(root, p)
    ensures IsPath(Replace(root, p, n), p) && NodeAt(Replace(root, p, n), p) == n
    ensures Before(Replace(root, p, n), p) == Before(root, p)
    decreases |p|
  {
    if p != [] {
      SameBefore(root.items[p[0]].node, p[1..], n);
      assert Replace(root, p, n).items[..p[0]] == root.items[..p[0]];
    }
  }

  /** A subnode was taken away, its place closed or filled with no-ops. */
  lemma FinishRemove(s: seq<byte>, strings: seq<byte>, root: Node, view: View, p: seq<nat>, k: nat, off: int, end: int,
                     mid: seq<Item>, t: seq<byte>)
    returns (root': Node, view': View, c: nat)
    requires Holding(s, strings, root, view) && Argument(s, root, p + [k], off) && CheckNode(s, off) >= 0
    requires IsNodeAt(root, p + [k], off) && AllOk(Flatten(NodeAt(root, p + [k])))
    requires AllNops(mid) && AllOk(FlattenItems(mid)) && end == off + |EncodeAll(Flatten(NodeAt(root, p + [k])))|
    requires Exchanged(s, off, end, EncodeAll(FlattenItems(mid)), t)
    ensures Holding(t, strings, root', view') && IsPruned(view, Place(root, p), c, view')
    ensures Place(root, p + [k]) == Place(root, p) + [c]
  {
    Checked(s, strings, root, view, p + [k], off);
    ParentPath(root, p, k);
    SubPath(root, p, k);
    RemoveKeepsTree(s, strings, root, p, k, mid, off, end, t);
    RemoveMeansTree(strings, root, p, k, mid);
    root' := Edited(root, p, k, k + 1, mid);
    view' := ViewOf(root', strings);
    MakeHolding(t, strings, root');
    c := Count(NodeAt(root, p).items[..k]);
  }

  lemma {:induction false} ParentPath(root: Node, p: seq<nat>, k: nat)
    requires IsPath(root, p + [k])
    ensures IsPath(root, p) && k < |NodeAt(root, p).items| && NodeAt(root, p).items[k].ChildItem?
    ensures ViewPath(root, p + [k]) == ViewPath(root, p) + [Count(NodeAt(root, p).items[..k])]
    decreases |p|
  {
    if p == [] {
      assert p + [k] == [k] && [k][1..] == [];
    } else {
      assert (p + [k])[1..] == p[1..] + [k];
      ParentPath(root.items[p[0]].node, p[1..], k);
    }
  }

  /** A node was given another name. */
  lemma FinishRename(s: seq<byte>, strings: seq<byte>, root: Node, view: View, p: seq<nat>, off: int, name: seq<byte>,
                     pad: seq<byte>, t: seq<byte>)
    returns (root': Node, view': View)
    requires Holding(s, strings, root, view) && Argument(s, root, p, off) && CheckNode(s, off) >= 0
    requires IsNodeAt(root, p, off) && TokenOk(Begin(name, pad))
    requires TokenOk(Begin(NodeAt(root, p).name, NodeAt(root, p).pad))
    requires Exchanged(s, off, off + |Encode(Begin(NodeAt(root, p).name, NodeAt(root, p).pad))|,
      Encode(Begin(name, pad)), t)
    ensures Holding(t, strings, root', view') && IsRenamed(view, Place(root, p), name, view')
  {
    Checked(s, strings, root, view, p, off);
    RenameKeepsTree(s, strings, root, p, name, pad, off,
      off + |Encode(Begin(NodeAt(root, p).name, NodeAt(root, p).pad))|, t);
    RenameMeans(strings, root, p, name, pad);
    root' := Replace(root, p, NodeAt(root, p).(name := name, pad := pad));
    view' := ViewOf(root', strings);
    MakeHolding(t, strings, root');
  }

  // ---------------------------------------------------------------- finding nodes, in terms of the meaning

  /** fdt_subnode_offset_namelen, in terms of the meaning. */
  method FindSubnode(s: seq<byte>, strings: seq<byte>, off: int, name: seq<byte>, ghost root: Node, ghost view: View,
                     ghost p: seq<nat>)
    returns (r: int)
    requires Holding(s, strings, root, view) && Argument(s, root, p, off) && NoNul(name)
    ensures CheckNode(s, off) < 0 ==> r == if off < 0 then off else ERR_BADOFFSET
    ensures CheckNode(s, off) >= 0 ==>
      && IsViewPath(view, Place(root, p)) && (r >= 0 || r == ERR_NOTFOUND)
      && (r >= 0 <==> AnyMatch(ViewAt(view, Place(root, p)).children, name))
  {
    if CheckNode(s, off) >= 0 {
      Checked(s, strings, root, view, p, off);
      NodeMeans(strings, root, p);
      MatchMeans(NodeAt(root, p).items, strings, name);
    }
    OpenArguments(s, strings, root, view, p, off);
    r := LookupSubnode(s, strings, off, name, root, p);
  }

  lemma OpenArguments(s: seq<byte>, strings: seq<byte>, root: Node, view: View, p: seq<nat>, off: int)
    requires Holding(s, strings, root, view) && Argument(s, root, p, off)
    ensures TreeOk(s, strings, root) && NodeArg(s, root, p, off)
  {
    assert Opens(OfHolding);
    assert Opens(OfPlace);
  }

  /** A new node's place r, after the properties of the node at p. */
  ghost predicate IsGap(s: seq<byte>, strings: seq<byte>, root: Node, view: View, p: seq<nat>, k: nat, r: int) {
    && 0 <= r <= |s|
    && forall key: Key :: Opens(key) && key == OfPlace ==>
         && TreeOk(s, strings, root) && ViewOf(root, strings) == view && IsPath(root, p)
           && k == FirstChild(NodeAt(root, p).items)
         && AllOk(Upto(root, p, k)) && r == ItemOffset(root, p, k)
  }

  /** Past a node's properties is the gap for a new subnode. */
  lemma GapIsFound(s: seq<byte>, strings: seq<byte>, off: int, root: Node, view: View, p: seq<nat>, r: int)
    returns (k: nat)
    requires Holding(s, strings, root, view) && Argument(s, root, p, off) && CheckNode(s, off) >= 0
    requires Some(r) == PastProps(s, TagAt(s, off).next)
    ensures IsGap(s, strings, root, view, p, k, r)
  {
    Checked(s, strings, root, view, p, off);
    k := FirstChild(NodeAt(root, p).items);
    PlaceForNode(s, strings, off, root, p);
  }

  /** The walk over a node's properties ends. */
  lemma GapEnds(s: seq<byte>, strings: seq<byte>, off: int, root: Node, view: View, p: seq<nat>)
    requires Holding(s, strings, root, view) && Argument(s, root, p, off) && CheckNode(s, off) >= 0
    ensures PastProps(s, TagAt(s, off).next) != None
  {
    Checked(s, strings, root, view, p, off);
    PlaceForNode(s, strings, off, root, p);
  }

  /** The node at offset r, with its name. */
  ghost predicate IsNodeNamed(root: Node, p: seq<nat>, r: int, name: seq<byte>) {
    IsNodeAt(root, p, r) && NodeAt(root, p).name == name
  }

  lemma FillGap(s: seq<byte>, strings: seq<byte>, root: Node, view: View, p: seq<nat>, k: nat, r: int, m: Node,
                t: seq<byte>)
    returns (root': Node, view': View)
    requires IsGap(s, strings, root, view, p, k, r) && m.items == [] && AllOk(Flatten(m))
    requires Exchanged(s, r, r, EncodeAll(Flatten(m)), t)
    ensures Holding(t, strings, root', view') && IsGrown(view, Place(root, p), m.name, view')
    ensures IsNodeNamed(root', p + [k], r, m.name)
  {
    OpenGap(s, strings, root, view, p, k, r);
    root', view' := FinishSubnode(s, strings, root, p, k, m, t);
  }

  lemma OpenGap(s: seq<byte>, strings: seq<byte>, root: Node, view: View, p: seq<nat>, k: nat, r: int)
    requires IsGap(s, strings, root, view, p, k, r)
    ensures TreeOk(s, strings, root) && ViewOf(root, strings) == view && IsPath(root, p)
    ensures k == FirstChild(NodeAt(root, p).items)
    ensures AllOk(Upto(root, p, k)) && r == ItemOffset(root, p, k)
  {
    assert Opens(OfPlace);
  }

  /** The bytes of the node at path q run from off to end. */
  ghost predicate IsExtent(s: seq<byte>, root: Node, q: seq<nat>, off: int, end: int) {
    && 0 <= off <= end <= |s| && (end - off) % 4 == 0
    && forall key: Key :: Opens(key) && key == OfPlace ==>
         && IsNodeAt(root, q, off) && CheckNode(s, off) >= 0 && AllOk(Flatten(NodeAt(root, q)))
         && end == off + |EncodeAll(Flatten(NodeAt(root, q)))|
  }

  /** _fdt_node_end_offset, in terms of the tree. */
  method FindEnd(s: seq<byte>, strings: seq<byte>, off: int, ghost root: Node, ghost view: View, ghost q: seq<nat>)
    returns (end: int)
    requires Holding(s, strings, root, view) && Argument(s, root, q, off)
    ensures CheckNode(s, off) < 0 ==> end < 0
    ensures CheckNode(s, off) >= 0 ==> IsExtent(s, root, q, off, end)
  {
    OpenArguments(s, strings, root, view, q, off);
    end := LookupEnd(s, strings, off, root, q);
    if CheckNode(s, off) >= 0 { MakeExtent(s, root, q, off); }
  }

  lemma MakeExtent(s: seq<byte>, root: Node, q: seq<nat>, off: int)
    requires IsNodeAt(root, q, off) && CheckNode(s, off) >= 0 && AllOk(Flatten(NodeAt(root, q)))
    requires off >= 0 && off + |EncodeAll(Flatten(NodeAt(root, q)))| <= |s|
    ensures IsExtent(s, root, q, off, off + |EncodeAll(Flatten(NodeAt(root, q)))|)
  {
    EncodeAllAligned(Flatten(NodeAt(root, q)));
  }

  /** The node in the extent, other than the root, was taken away. */
  lemma ClearExtent(s: seq<byte>, strings: seq<byte>, root: Node, view: View, q: seq<nat>, off: int, end: int,
                    mid: seq<Item>, t: seq<byte>)
    returns (root': Node, view': View)
    requires Holding(s, strings, root, view) && Argument(s, root, q, off) && IsExtent(s, root, q, off, end) && q != []
    requires AllNops(mid) && AllOk(FlattenItems(mid)) && Exchanged(s, off, end, EncodeAll(FlattenItems(mid)), t)
    ensures Holding(t, strings, root', view') && IsGone(view, Place(root, q), view')
  {
    OpenExtent(s, root, q, off, end);
    var p, k := q[..|q| - 1], q[|q| - 1];
    FrontAndLast(q, p, k);
    var c;
    root', view', c := FinishRemove(s, strings, root, view, p, k, off, end, mid, t);
    LastPlace(Place(root, p), c);
  }

  lemma FrontAndLast(q: seq<nat>, p: seq<nat>, k: nat)
    requires q != [] && p == q[..|q| - 1] && k == q[|q| - 1]
    ensures q == p + [k]
  {
  }

  lemma LastPlace(v: seq<nat>, c: nat)
    ensures (v + [c])[..|v + [c]| - 1] == v && (v + [c])[|v + [c]| - 1] == c
  {
  }

  lemma OpenExtent(s: seq<byte>, root: Node, q: seq<nat>, off: int, end: int)
    requires IsExtent(s, root, q, off, end)
    ensures IsNodeAt(root, q, off) && CheckNode(s, off) >= 0 && AllOk(Flatten(NodeAt(root, q)))
    ensures end == off + |EncodeAll(Flatten(NodeAt(root, q)))|
  {
    assert Opens(OfPlace);
  }

  /** The extent of the root. */
  lemma RootExtent(s: seq<byte>, root: Node, off: int, end: int)
    requires IsExtent(s, root, [], off, end)
    ensures off == 0 && AllOk(Flatten(root)) && end == |EncodeAll(Flatten(root))|
  {
    OpenExtent(s, root, [], off, end);
  }

  /** The begin tag of the node at offset off, with a name of oldlen bytes. */
  ghost predicate IsBegin(s: seq<byte>, root: Node, p: seq<nat>, off: int, oldlen: int) {
    && 0 <= off && 0 <= oldlen && off + 4 + Align4(oldlen + 1) <= |s| && Holds(s, off, Word(BEGIN_NODE))
    && forall key: Key :: Opens(key) && key == OfPlace ==>
         && IsNodeAt(root, p, off) && CheckNode(s, off) >= 0
           && TokenOk(Begin(NodeAt(root, p).name, NodeAt(root, p).pad))
         && oldlen == |NodeAt(root, p).name|
  }

  /** fdt_get_name, for the length of the name. */
  method FindName(s: seq<byte>, strings: seq<byte>, off: int, ghost root: Node, ghost view: View, ghost p: seq<nat>)
    returns (err: int, oldlen: int)
    requires Holding(s, strings, root, view) && Argument(s, root, p, off)
    ensures CheckNode(s, off) < 0 ==> err == ERR_BADOFFSET
    ensures CheckNode(s, off) >= 0 ==> err >= 0 && IsBegin(s, root, p, off, oldlen)
  {
    OpenArguments(s, strings, root, view, p, off);
    var name;
    err, name := LookupName(s, strings, off, root, p);
    oldlen := |name|;
    if err >= 0 { BeginStands(s, strings, root, p, off); }
  }

  lemma BeginStands(s: seq<byte>, strings: seq<byte>, root: Node, p: seq<nat>, off: int)
    requires TreeOk(s, strings, root) && IsNodeAt(root, p, off)
    ensures var n := NodeAt(root, p);
      TokenOk(Begin(n.name, n.pad)) && off >= 0 && off + 4 + Align4(|n.name| + 1) <= |s|
        && Holds(s, off, Word(BEGIN_NODE))
  {
    var n := NodeAt(root, p);
    NodeIsLaid(s, strings, root, p, off);
    FlattenEnds(n);
    var ts := Flatten(n);
    TokenHeld(s, off, ts, 0, off);
    HoldsParts(s, off, Word(BEGIN_NODE), n.name + [0] + n.pad);
  }

  lemma GiveName(s: seq<byte>, strings: seq<byte>, root: Node, view: View, p: seq<nat>, off: int, oldlen: int,
                 name: seq<byte>, pad: seq<byte>, t: seq<byte>)
    returns (root': Node, view': View)
    requires Holding(s, strings, root, view) && Argument(s, root, p, off) && IsBegin(s, root, p, off, oldlen)
    requires TokenOk(Begin(name, pad)) && Exchanged(s, off, off + 4 + Align4(oldlen + 1), Encode(Begin(name, pad)), t)
    ensures Holding(t, strings, root', view') && IsRenamed(view, Place(root, p), name, view')
  {
    OpenBegin(s, root, p, off, oldlen);
    root', view' := FinishRename(s, strings, root, view, p, off, name, pad, t);
  }

  lemma OpenBegin(s: seq<byte>, root: Node, p: seq<nat>, off: int, oldlen: int)
    requires IsBegin(s, root, p, off, oldlen)
    ensures IsNodeAt(root, p, off) && CheckNode(s, off) >= 0
    ensures TokenOk(Begin(NodeAt(root, p).name, NodeAt(root, p).pad))
    ensures oldlen == |NodeAt(root, p).name|
    ensures |Encode(Begin(NodeAt(root, p).name, NodeAt(root, p).pad))| == 4 + Align4(oldlen + 1)
  {
    assert Opens(OfPlace);
  }
}
