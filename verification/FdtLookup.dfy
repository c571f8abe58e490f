/**
 Looking things up in a well-formed structure block by the offset of a node (fdt_ro.c, fdt_wip.c).
 */
module FdtLookup {
  import opened Seqs
  import opened Seal
  import opened Options
  import opened FdtFormat
  import opened FdtTree
  import opened FdtView
  import opened FdtScan
  import opened FdtRead
  import opened FdtSplice

  /** A structure block and a strings block that hold a tree: the tree's tokens, and the END tag behind them. */
  ghost predicate TreeOk(s: seq<byte>, strings: seq<byte>, root: Node) {
    && NamesOk(strings, Flatten(root))
    && forall key: Key :: Opens(key) && key == OfTree ==> Stands(s, 0, Flatten(root) + [End]) && Ordered(root)
  }

  lemma OpenTree(s: seq<byte>, strings: seq<byte>, root: Node)
    requires TreeOk(s, strings, root)
    ensures Stands(s, 0, Flatten(root) + [End]) && Stands(s, 0, Flatten(root)) && Ordered(root)
  {
    assert Opens(OfTree);
    FrontStands(s, Flatten(root), [End]);
  }

  /** The END tag stands behind the tree. */
  lemma EndStands(s: seq<byte>, strings: seq<byte>, root: Node)
    requires TreeOk(s, strings, root)
    ensures AllOk(Flatten(root)) && var end := |EncodeAll(Flatten(root))|;
      end % 4 == 0 && Holds(s, end, Word(END)) && TagAt(s, end) == Step(END, end + 4)
        && CheckNode(s, end) == ERR_BADOFFSET
  {
    OpenTree(s, strings, root);
    var ts := Flatten(root);
    NothingBetween(ts + [End], []);
    PartStands(s, ts, [End], []);
    EncodeOne(End);
    TagAtToken(s, |EncodeAll(ts)|, End);
  }

  lemma CloseTree(s: seq<byte>, strings: seq<byte>, root: Node)
    requires NamesOk(strings, Flatten(root)) && Stands(s, 0, Flatten(root) + [End]) && Ordered(root)
    ensures TreeOk(s, strings, root)
  {
    assert Opens(OfTree);
  }

  /** The node at path p has offset off. */
  ghost predicate IsNodeAt(root: Node, p: seq<nat>, off: int) {
    NodeStandsAt(root, p, off) == true
  }

  ghost predicate NodeStandsAt(root: Node, p: seq<nat>, off: int) {
    IsPath(root, p) && AllOk(Before(root, p)) && off == |EncodeAll(Before(root, p))|
  }

  /** An offset argument: what passes the reader's check is a node's offset. */
  ghost predicate NodeArg(s: seq<byte>, root: Node, p: seq<nat>, off: int) {
    CheckNode(s, off) >= 0 ==> IsNodeAt(root, p, off)
  }

  lemma FlattenEnds(n: Node)
    ensures var ts := Flatten(n);
      |ts| > 1 && ts[0] == Begin(n.name, n.pad) && ts[|ts| - 1] == EndNode && |ts| == |FlattenItems(n.items)| + 2
    ensures Spans(Flatten(n), 1, FlattenItems(n.items)) && Spans(Flatten(n), 1 + |FlattenItems(n.items)|, [EndNode])
    ensures Spans(Flatten(n), 0, Flatten(n))
  {
    var ts := Flatten(n);
    assert ts[1..1 + |FlattenItems(n.items)|] == FlattenItems(n.items);
    assert ts[0..|ts|] == ts;
  }

  lemma {:induction false} NoEndInNode(n: Node)
    ensures End !in Flatten(n)
    decreases n
  {
    NoEndInItems(n.items);
  }

  lemma {:induction false} NoEndInItems(items: seq<Item>)
    ensures End !in FlattenItems(items)
    decreases items
  {
    if items != [] {
      NoEndInItem(items[0]);
      NoEndInItems(items[1..]);
    }
  }

  lemma {:induction false} NoEndInItem(item: Item)
    ensures End !in FlattenItem(item)
    decreases item
  {
    if item.ChildItem? { NoEndInNode(item.node); }
  }

  lemma {:induction false} NodeNamesOk(root: Node, p: seq<nat>, strings: seq<byte>)
    requires IsPath(root, p) && NamesOk(strings, Flatten(root))
    ensures NamesOk(strings, Flatten(NodeAt(root, p)))
  {
    FlattenAt(root, p);
    NamesConcat(strings, Before(root, p) + Flatten(NodeAt(root, p)), After(root, p));
    NamesConcat(strings, Before(root, p), Flatten(NodeAt(root, p)));
  }

  /** The node's tokens, at the place of the node. */
  lemma NodeIsLaid(s: seq<byte>, strings: seq<byte>, root: Node, p: seq<nat>, off: int)
    requires TreeOk(s, strings, root) && IsNodeAt(root, p, off)
    ensures Stands(s, off, Flatten(NodeAt(root, p)))
    ensures NodeLaid(s, strings, Flatten(NodeAt(root, p)), Positions(off, Flatten(NodeAt(root, p))))
    ensures Positions(off, Flatten(NodeAt(root, p)))[0] == off
  {
    OpenTree(s, strings, root);
    var n := NodeAt(root, p);
    NodeStands(s, root, p);
    StandsIsLaid(s, off, Flatten(n));
    NodeNamesOk(root, p, strings);
    FlattenEnds(n);
    NoEndInNode(n);
  }

  /** Token counts and byte offsets of a node's items agree. */
  lemma ItemPlace(root: Node, p: seq<nat>, off: int, k: int)
    requires IsNodeAt(root, p, off) && 0 <= k <= |NodeAt(root, p).items| && AllOk(Flatten(NodeAt(root, p)))
    ensures AllOk(Upto(root, p, k))
    ensures var ts, i := Flatten(NodeAt(root, p)), 1 + |FlattenItems(NodeAt(root, p).items[..k])|;
      i < |ts| && Positions(off, ts)[i] == ItemOffset(root, p, k)
  {
    var n := NodeAt(root, p);
    var ts, a := Flatten(n), FlattenItems(n.items[..k]);
    NodePrefix(n, k);
    CutAt(ts, 1 + |a|);
    AllOkParts(ts[..1 + |a|], ts[1 + |a|..]);
    OffIsLength(ts, 1 + |a|);
    UptoEncoded(root, p, k);
  }

  /** The first tokens of a node: its begin tag and its first items. */
  lemma NodePrefix(n: Node, k: int)
    requires 0 <= k <= |n.items|
    ensures var i := 1 + |FlattenItems(n.items[..k])|;
      i < |Flatten(n)| && Flatten(n)[..i] == [Begin(n.name, n.pad)] + FlattenItems(n.items[..k])
  {
    var a, c := FlattenItems(n.items[..k]), FlattenItems(n.items[k..]);
    CutAt(n.items, k);
    FlattenConcat(n.items[..k], n.items[k..]);
    assert [Begin(n.name, n.pad)] + (a + c) + [EndNode] == ([Begin(n.name, n.pad)] + a) + (c + [EndNode]);
  }

  lemma UptoEncoded(root: Node, p: seq<nat>, k: int)
    requires IsPath(root, p) && 0 <= k <= |NodeAt(root, p).items| && AllOk(Before(root, p))
    requires AllOk([Begin(NodeAt(root, p).name, NodeAt(root, p).pad)] + FlattenItems(NodeAt(root, p).items[..k]))
    ensures AllOk(Upto(root, p, k))
    ensures ItemOffset(root, p, k) == |EncodeAll(Before(root, p))|
      + |EncodeAll([Begin(NodeAt(root, p).name, NodeAt(root, p).pad)] + FlattenItems(NodeAt(root, p).items[..k]))|
  {
    var n := NodeAt(root, p);
    var a, b, c := Before(root, p), [Begin(n.name, n.pad)], FlattenItems(n.items[..k]);
    Assoc(a, b, c);
    EncodedTwo(a, b + c, Upto(root, p, k));
  }

  lemma EncodedTwo(a: seq<Token>, b: seq<Token>, c: seq<Token>)
    requires AllOk(a) && AllOk(b) && c == a + b
    ensures AllOk(c) && |EncodeAll(c)| == |EncodeAll(a)| + |EncodeAll(b)|
  {
    EncodeConcat(a, b);
  }

  /** fdt_get_property on a tree: the first property of the name, where the tree has it. */
  method LookupProperty(s: seq<byte>, strings: seq<byte>, off: int, name: seq<byte>, ghost root: Node,
                        ghost p: seq<nat>)
    returns (r: int, ghost k: nat)
    requires TreeOk(s, strings, root) && NodeArg(s, root, p, off)
    ensures CheckNode(s, off) < 0 ==> r == ERR_BADOFFSET
    ensures CheckNode(s, off) >= 0 ==>
      var n := NodeAt(root, p);
      NamesOk(strings, FlattenItems(n.items)) && k == FirstProp(n.items, strings, name)
      && if k == |n.items| then r == ERR_NOTFOUND else PropAt(s, root, p, k, r)
  {
    ghost var ts, pos := [], [];
    k := 0;
    if CheckNode(s, off) >= 0 {
      NodeIsLaid(s, strings, root, p, off);
      ts := Flatten(NodeAt(root, p));
      pos := Positions(off, ts);
    }
    r := GetProperty(s, strings, off, name, ts, pos);
    if CheckNode(s, off) >= 0 {
      k := FoundAt(s, strings, root, p, off, name, r);
    }
  }

  /** Item k of the node is a property that stands at offset r. */
  ghost predicate PropAt(s: seq<byte>, root: Node, p: seq<nat>, k: int, r: int) {
    PropStandsAt(s, root, p, k, r) == true
  }

  ghost predicate PropStandsAt(s: seq<byte>, root: Node, p: seq<nat>, k: int, r: int) {
    && IsPath(root, p) && 0 <= k < |NodeAt(root, p).items| && NodeAt(root, p).items[k].PropItem?
    && AllOk(Upto(root, p, k)) && r == ItemOffset(root, p, k)
    && var item := NodeAt(root, p).items[k];
      0 <= r && Aligned(r) && TokenOk(Prop(item.nameoff, item.value, item.pad))
        && Holds(s, r, Encode(Prop(item.nameoff, item.value, item.pad)))
  }

  lemma FoundAt(s: seq<byte>, strings: seq<byte>, root: Node, p: seq<nat>, off: int, name: seq<byte>, r: int)
    returns (k: nat)
    requires TreeOk(s, strings, root) && IsNodeAt(root, p, off)
    requires AllOk(Flatten(NodeAt(root, p))) && NamesOk(strings, Flatten(NodeAt(root, p)))
    requires var ts := Flatten(NodeAt(root, p));
      var found := FindProp(ts, 1, strings, name);
      if found == -1 then r == ERR_NOTFOUND
        else 0 <= found < |ts| && ts[found].Prop? && r == Positions(off, ts)[found] >= 0
    ensures NamesOk(strings, FlattenItems(NodeAt(root, p).items))
    ensures k == FirstProp(NodeAt(root, p).items, strings, name)
    ensures if k == |NodeAt(root, p).items| then r == ERR_NOTFOUND else PropAt(s, root, p, k, r)
  {
    var n := NodeAt(root, p);
    FlattenEnds(n);
    ItemsAreOk(n, strings);
    FindPropFinds(Flatten(n), 1, n.items, strings, name);
    k := FirstProp(n.items, strings, name);
    if k < |n.items| { FoundStands(s, strings, root, p, off, k, r); }
  }

  lemma FoundStands(s: seq<byte>, strings: seq<byte>, root: Node, p: seq<nat>, off: int, k: nat, r: int)
    requires TreeOk(s, strings, root) && IsNodeAt(root, p, off) && AllOk(Flatten(NodeAt(root, p)))
    requires k < |NodeAt(root, p).items| && NodeAt(root, p).items[k].PropItem?
    requires |FlattenItems(NodeAt(root, p).items[..k])| == k
    requires 1 + k < |Flatten(NodeAt(root, p))| && r == Positions(off, Flatten(NodeAt(root, p)))[1 + k] >= 0
    ensures PropAt(s, root, p, k, r)
  {
    var n := NodeAt(root, p);
    ItemPlace(root, p, off, k);
    NodeIsLaid(s, strings, root, p, off);
    ItemToken(n, k);
    TokenHeld(s, off, Flatten(n), 1 + k, r);
    OffAligned(Flatten(n), 1 + k);
    AlignedSum(off, Off(Flatten(n), 1 + k), r);
  }

  lemma ItemToken(n: Node, k: int)
    requires 0 <= k < |n.items| && n.items[k].PropItem?
    ensures var i := 1 + |FlattenItems(n.items[..k])|;
      i < |Flatten(n)| && Flatten(n)[i] == Prop(n.items[k].nameoff, n.items[k].value, n.items[k].pad)
  {
    CutAround(n.items, k);
    FlattenMiddle(n.items[..k], [n.items[k]], n.items[k + 1..]);
    FlattenOne(n.items[k]);
  }

  // ---------------------------------------------------------------- the ends of a node

  /** A checked offset leads to the node's first item. */
  lemma FirstItemAt(s: seq<byte>, strings: seq<byte>, root: Node, p: seq<nat>, off: int)
    requires TreeOk(s, strings, root) && IsNodeAt(root, p, off)
    ensures AllOk(Upto(root, p, 0)) && CheckNode(s, off) == ItemOffset(root, p, 0)
  {
    var n := NodeAt(root, p);
    var ts := Flatten(n);
    NodeIsLaid(s, strings, root, p, off);
    FlattenEnds(n);
    ItemPlace(root, p, off, 0);
    assert n.items[..0] == [];
    assert LaidAt(s, ts[0], Positions(off, ts)[0], Positions(off, ts)[1]);
  }

  /** fdt_add_subnode_namelen's place for a new node: after the properties. */
  lemma PlaceForNode(s: seq<byte>, strings: seq<byte>, off: int, root: Node, p: seq<nat>)
    requires TreeOk(s, strings, root) && IsNodeAt(root, p, off)
    ensures var k := FirstChild(NodeAt(root, p).items);
      AllOk(Upto(root, p, k)) && PastProps(s, TagAt(s, off).next) == Some(ItemOffset(root, p, k))
        && ItemOffset(root, p, k) <= |s|
  {
    var n := NodeAt(root, p);
    GapPlace(s, strings, root, p, off, FirstChild(n.items), 1 + FirstChild(n.items));
    GapFound(s, off, Flatten(n), Positions(off, Flatten(n)));
  }

  lemma GapFound(s: seq<byte>, off: int, ts: seq<Token>, pos: seq<int>)
    requires Laid(s, ts, pos) && |ts| > 1 && off == pos[0] && SkipProps(ts, 1) < |ts|
    ensures PastProps(s, TagAt(s, off).next) == Some(pos[SkipProps(ts, 1)])
  {
    assert LaidAt(s, ts[0], pos[0], pos[1]);
    PastPropTokens(s, ts, pos, 1);
  }

  lemma GapPlace(s: seq<byte>, strings: seq<byte>, root: Node, p: seq<nat>, off: int, k: nat, i: nat)
    requires TreeOk(s, strings, root) && IsNodeAt(root, p, off) && k == FirstChild(NodeAt(root, p).items) && i == 1 + k
    ensures var ts := Flatten(NodeAt(root, p));
      && AllOk(ts) && Laid(s, ts, Positions(off, ts)) && 1 < |ts| && Positions(off, ts)[0] == off
      && SkipProps(ts, 1) == i < |ts| && AllOk(Upto(root, p, k))
        && Positions(off, ts)[i] == ItemOffset(root, p, k) <= |s|
  {
    var n := NodeAt(root, p);
    NodeIsLaid(s, strings, root, p, off);
    FlattenEnds(n);
    SkipPropsFinds(Flatten(n), 1, n.items);
    ItemPlace(root, p, off, k);
    assert LaidAt(s, Flatten(n)[i], Positions(off, Flatten(n))[i], Positions(off, Flatten(n))[i + 1]);
  }

  /** fdt_subnode_offset_namelen on a tree: the first subnode that matches. */
  method LookupSubnode(s: seq<byte>, strings: seq<byte>, off: int, name: seq<byte>, ghost root: Node, ghost p: seq<nat>)
    returns (r: int)
    requires TreeOk(s, strings, root) && NodeArg(s, root, p, off) && NoNul(name)
    ensures CheckNode(s, off) < 0 ==> r == if off < 0 then off else ERR_BADOFFSET
    ensures CheckNode(s, off) >= 0 ==> IsPath(root, p) && IsFirstMatch(root, p, Named(name), r)
  {
    ghost var ts, pos := [], [];
    if CheckNode(s, off) >= 0 {
      SearchTree(s, strings, root, p, off, Named(name));
      ts := Flatten(NodeAt(root, p));
      pos := Positions(off, ts);
    }
    r := SubnodeOffset(s, off, name, ts, pos, 0, 1);
    if CheckNode(s, off) >= 0 { SubnodePlace(root, p, off, Named(name), r); }
  }

  /** r is the offset of the first subnode of the node at p whose name matches, or says that there is none. */
  ghost predicate IsFirstMatch(root: Node, p: seq<nat>, pat: Pattern, r: int)
    requires IsPath(root, p)
  {
    var items := NodeAt(root, p).items;
    var k := FirstMatch(items, pat);
    if k == |items| then r == ERR_NOTFOUND else r >= 0 && IsPath(root, p + [k]) && IsNodeAt(root, p + [k], r)
  }

  lemma SearchTree(s: seq<byte>, strings: seq<byte>, root: Node, p: seq<nat>, off: int, pat: Pattern)
    requires TreeOk(s, strings, root) && IsNodeAt(root, p, off)
    ensures AllOk(Flatten(NodeAt(root, p)))
    ensures AtNode(s, Flatten(NodeAt(root, p)), Positions(off, Flatten(NodeAt(root, p))), 0, off, 0)
    ensures var items := NodeAt(root, p).items;
      var k := FirstMatch(items, pat);
      Search(Flatten(NodeAt(root, p)), 1, 0, pat) == if k < |items| then 1 + |FlattenItems(items[..k])| else -1
  {
    NodeIsLaid(s, strings, root, p, off);
    NodeScan(NodeAt(root, p));
    NodeSearch(NodeAt(root, p), pat);
  }

  lemma NodeScan(n: Node)
    ensures |Flatten(n)| > 1 && Flatten(n)[0].Begin? && Scan(Flatten(n), 1, 0) != -1
  {
    FlattenEnds(n);
    ScanNode(Flatten(n), 0, n, 0);
  }

  lemma NodeSearch(n: Node, pat: Pattern)
    ensures var k := FirstMatch(n.items, pat);
      Search(Flatten(n), 1, 0, pat) == if k < |n.items| then 1 + |FlattenItems(n.items[..k])| else -1
  {
    FlattenEnds(n);
    SearchFinds(Flatten(n), 1, n.items, pat);
  }

  lemma SubnodePlace(root: Node, p: seq<nat>, off: int, pat: Pattern, r: int)
    requires IsNodeAt(root, p, off) && AllOk(Flatten(NodeAt(root, p)))
    requires var items := NodeAt(root, p).items;
      var k := FirstMatch(items, pat);
      Search(Flatten(NodeAt(root, p)), 1, 0, pat) == if k < |items| then 1 + |FlattenItems(items[..k])| else -1
    requires var found := Search(Flatten(NodeAt(root, p)), 1, 0, pat);
      if found == -1 then r == ERR_NOTFOUND
      else 0 <= found < |Flatten(NodeAt(root, p))| && r == Positions(off, Flatten(NodeAt(root, p)))[found] >= 0
    ensures IsFirstMatch(root, p, pat, r)
  {
    var k := FirstMatch(NodeAt(root, p).items, pat);
    if k < |NodeAt(root, p).items| {
      ItemPlace(root, p, off, k);
      SubPath(root, p, k);
    }
  }

  /** The node at a longer path is a subnode of the node at the shorter one. */
  lemma {:induction false} SubPath(root: Node, p: seq<nat>, k: nat)
    requires IsPath(root, p) && k < |NodeAt(root, p).items| && NodeAt(root, p).items[k].ChildItem?
    ensures IsPath(root, p + [k]) && NodeAt(root, p + [k]) == NodeAt(root, p).items[k].node
    ensures Before(root, p + [k]) == Upto(root, p, k)
    decreases |p|
  {
    if p == [] {
      assert p + [k] == [k] && [k][1..] == [];
    } else {
      assert (p + [k])[1..] == p[1..] + [k];
      SubPath(root.items[p[0]].node, p[1..], k);
    }
  }

  /** _fdt_node_end_offset on a tree: one past the node's last byte. */
  method LookupEnd(s: seq<byte>, strings: seq<byte>, off: int, ghost root: Node, ghost p: seq<nat>) returns (r: int)
    requires TreeOk(s, strings, root) && NodeArg(s, root, p, off)
    ensures CheckNode(s, off) < 0 ==> r < 0
    ensures CheckNode(s, off) >= 0 ==>
      0 <= off && AllOk(Flatten(NodeAt(root, p))) && r == off + |EncodeAll(Flatten(NodeAt(root, p)))| <= |s|
  {
    ghost var ts, pos := [], [];
    if CheckNode(s, off) >= 0 {
      NodeIsLaid(s, strings, root, p, off);
      ts := Flatten(NodeAt(root, p));
      pos := Positions(off, ts);
      FlattenEnds(NodeAt(root, p));
      ScanNode(ts, 0, NodeAt(root, p), 0);
      OffIsSize(ts);
    }
    r := NodeEnd(s, off, ts, pos, 0);
  }

  /** fdt_get_name on a tree. */
  method LookupName(s: seq<byte>, strings: seq<byte>, off: int, ghost root: Node, ghost p: seq<nat>)
    returns (err: int, name: seq<byte>)
    requires TreeOk(s, strings, root) && NodeArg(s, root, p, off)
    ensures CheckNode(s, off) < 0 ==> err == ERR_BADOFFSET
    ensures CheckNode(s, off) >= 0 ==> err >= 0 && name == NodeAt(root, p).name
  {
    err := CheckNodeOffset(s, off);
    name := [];
    if err < 0 { return; }
    NodeIsLaid(s, strings, root, p, off);
    ghost var ts := Flatten(NodeAt(root, p));
    FlattenEnds(NodeAt(root, p));
    assert LaidAt(s, ts[0], Positions(off, ts)[0], Positions(off, ts)[1]);
    var len := Strlen(s, off + 4, ts[0].name);
    name := s[off + 4..off + 4 + len];
    HeldIs(s, off + 4, ts[0].name);
  }

  method Strlen(s: seq<byte>, at: int, ghost name: seq<byte>) returns (n: int)
    requires Holds(s, at, name) && NoNul(name) && at + |name| < |s| && s[at + |name|] == 0
    ensures n == |name|
  {
    forall j | at <= j < at + |name| ensures s[j] != 0 { HoldsAt(s, at, name, j - at); }
    n := 0;
    while s[at + n] != 0
      invariant 0 <= n <= |name|
      decreases |name| - n
    {
      n := n + 1;
    }
  }

  // ---------------------------------------------------------------- subnodes one after the other

  /** The first subnode from item k on, or the number of items. */
  function NextChild(items: seq<Item>, k: nat): (c: nat)
    requires k <= |items|
    ensures k <= c <= |items| && (c < |items| ==> items[c].ChildItem?)
    ensures forall i :: k <= i < c ==> !items[i].ChildItem?
    decreases |items| - k
  {
    if k == |items| || items[k].ChildItem? then k else NextChild(items, k + 1)
  }

  /** r is the offset of the first subnode from item k on, or says that there is none. */
  ghost predicate IsNextChild(root: Node, p: seq<nat>, k: nat, r: int)
    requires IsPath(root, p) && k <= |NodeAt(root, p).items|
  {
    var c := NextChild(NodeAt(root, p).items, k);
    if c == |NodeAt(root, p).items| then r == ERR_NOTFOUND
      else r >= 0 && IsPath(root, p + [c]) && IsNodeAt(root, p + [c], r)
  }

  /** Searching on behind item k - 1 finds the next subnode. */
  lemma {:induction false} SearchOn(ts: seq<Token>, i: nat, items: seq<Item>, k: nat, at: nat)
    requires k <= |items| && Spans(ts, i, FlattenItems(items)) && Spans(ts, i + |FlattenItems(items)|, [EndNode])
    requires at == i + |FlattenItems(items[..k])|
    ensures var c := NextChild(items, k);
      Search(ts, at, 0, Any) == if c < |items| then i + |FlattenItems(items[..c])| else -1
  {
    CutAt(items, k);
    FlattenConcat(items[..k], items[k..]);
    SpanParts(ts, i, FlattenItems(items[..k]), FlattenItems(items[k..]));
    SearchFinds(ts, at, items[k..], Any);
    NextIsFirst(items, k);
    var c := NextChild(items, k);
    FlattenRange(items, k, c);
  }

  lemma {:induction false} NextIsFirst(items: seq<Item>, k: nat)
    requires k <= |items|
    ensures FirstMatch(items[k..], Any) == NextChild(items, k) - k
    decreases |items| - k
  {
    if k < |items| && !items[k].ChildItem? {
      NextIsFirst(items, k + 1);
      assert items[k..][1..] == items[k + 1..];
    }
  }

  lemma FlattenRange(items: seq<Item>, k: nat, c: nat)
    requires k <= c <= |items|
    ensures |FlattenItems(items[..c])| == |FlattenItems(items[..k])| + |FlattenItems(items[k..][..c - k])|
  {
    assert items[..c] == items[..k] + items[k..][..c - k];
    FlattenConcat(items[..k], items[k..][..c - k]);
  }

  /** What the walk over a node's tokens from item k on finds. */
  lemma ChildWalk(s: seq<byte>, strings: seq<byte>, root: Node, p: seq<nat>, off: int, k: nat, at: nat)
    requires TreeOk(s, strings, root) && IsNodeAt(root, p, off) && k <= |NodeAt(root, p).items|
    requires at == 1 + |FlattenItems(NodeAt(root, p).items[..k])|
    ensures AllOk(Flatten(NodeAt(root, p)))
    ensures ChildPlace(root, p, k, Search(Flatten(NodeAt(root, p)), at, 0, Any))
  {
    var n := NodeAt(root, p);
    NodeIsLaid(s, strings, root, p, off);
    FlattenEnds(n);
    SearchOn(Flatten(n), 1, n.items, k, at);
  }

  /** The place of the first subnode from item k on among the node's tokens. */
  ghost predicate ChildPlace(root: Node, p: seq<nat>, k: nat, found: int)
    requires IsPath(root, p) && k <= |NodeAt(root, p).items|
  {
    var items := NodeAt(root, p).items;
    var c := NextChild(items, k);
    found == if c < |items| then 1 + |FlattenItems(items[..c])| else -1
  }

  /** The token found is the next subnode's. */
  lemma ChildFound(root: Node, p: seq<nat>, off: int, k: nat, found: int, r: int)
    requires IsNodeAt(root, p, off) && k <= |NodeAt(root, p).items| && AllOk(Flatten(NodeAt(root, p)))
    requires ChildPlace(root, p, k, found)
    requires FoundBy(Flatten(NodeAt(root, p)), Positions(off, Flatten(NodeAt(root, p))), found, r)
    ensures IsNextChild(root, p, k, r)
  {
    var c := NextChild(NodeAt(root, p).items, k);
    if c < |NodeAt(root, p).items| {
      ItemPlace(root, p, off, c);
      SubPath(root, p, c);
    }
  }

  /** fdt_first_subnode on a tree. */
  method FirstSubnode(s: seq<byte>, strings: seq<byte>, off: int, ghost root: Node, ghost p: seq<nat>) returns (r: int)
    requires TreeOk(s, strings, root) && NodeArg(s, root, p, off)
    ensures off < 0 ==> r == 0 && IsNodeAt(root, [], r)
    ensures off >= 0 && CheckNode(s, off) < 0 ==> r == ERR_NOTFOUND
    ensures CheckNode(s, off) >= 0 ==> IsPath(root, p) && IsNextChild(root, p, 0, r)
  {
    ghost var ts, pos := [], [];
    if off < 0 { RootIsFirst(s, strings, root); }
    if CheckNode(s, off) >= 0 {
      SearchTree(s, strings, root, p, off, Any);
      assert NodeAt(root, p).items[..0] == [];
      ChildWalk(s, strings, root, p, off, 0, 1);
      ts := Flatten(NodeAt(root, p));
      pos := Positions(off, ts);
    }
    r := FirstSubnodeOffset(s, off, ts, pos, 0, 1);
    if CheckNode(s, off) >= 0 { ChildFound(root, p, off, 0, Search(ts, 1, 0, Any), r); }
  }

  lemma RootAt(root: Node)
    ensures IsNodeAt(root, [], 0)
  {
  }

  /** The walk from the start of the block comes to the root at once. */
  lemma RootIsFirst(s: seq<byte>, strings: seq<byte>, root: Node)
    requires TreeOk(s, strings, root)
    ensures IsNodeAt(root, [], 0) && CheckNode(s, 0) >= 0
    ensures forall off, depth :: off < 0 ==> NodeAfter(s, off, depth) == Stop(0, depth + 1)
  {
    RootAt(root);
    SearchTree(s, strings, root, [], 0, Any);
    AtNodeChecks(s, Flatten(root), Positions(0, Flatten(root)), 0, 0, 0);
  }

  /** From inside subnode k the walk goes on behind it. */
  lemma SiblingWalk(s: seq<byte>, strings: seq<byte>, root: Node, p: seq<nat>, off: int, k: nat, sub: int, i: nat,
                    after: nat)
    requires TreeOk(s, strings, root) && IsNodeAt(root, p, off) && k < |NodeAt(root, p).items|
    requires NodeAt(root, p).items[k].ChildItem?
    requires IsNodeAt(root, p + [k], sub) && i == 1 + |FlattenItems(NodeAt(root, p).items[..k])| && after == i + 1
    ensures AllOk(Flatten(NodeAt(root, p)))
    ensures AtNode(s, Flatten(NodeAt(root, p)), Positions(off, Flatten(NodeAt(root, p))), i, sub, 1)
    ensures ChildPlace(root, p, k + 1, Search(Flatten(NodeAt(root, p)), after, 1, Any))
  {
    SiblingPlace(s, strings, root, p, off, k, sub, i);
    SiblingSearch(s, strings, root, p, off, k, i, after);
  }

  lemma SiblingPlace(s: seq<byte>, strings: seq<byte>, root: Node, p: seq<nat>, off: int, k: nat, sub: int, i: nat)
    requires TreeOk(s, strings, root) && IsNodeAt(root, p, off) && k < |NodeAt(root, p).items|
    requires NodeAt(root, p).items[k].ChildItem?
    requires IsNodeAt(root, p + [k], sub) && i == 1 + |FlattenItems(NodeAt(root, p).items[..k])|
    ensures AllOk(Flatten(NodeAt(root, p)))
    ensures AtNode(s, Flatten(NodeAt(root, p)), Positions(off, Flatten(NodeAt(root, p))), i, sub, 1)
  {
    var n := NodeAt(root, p);
    NodeIsLaid(s, strings, root, p, off);
    ChildSpan(n, k);
    ItemPlace(root, p, off, k);
    SubPath(root, p, k);
    ScanInside(Flatten(n), n, k, i);
  }

  lemma SiblingSearch(s: seq<byte>, strings: seq<byte>, root: Node, p: seq<nat>, off: int, k: nat, i: nat, after: nat)
    requires TreeOk(s, strings, root) && IsNodeAt(root, p, off) && k < |NodeAt(root, p).items|
    requires NodeAt(root, p).items[k].ChildItem?
    requires i == 1 + |FlattenItems(NodeAt(root, p).items[..k])| && after == i + 1
    ensures ChildPlace(root, p, k + 1, Search(Flatten(NodeAt(root, p)), after, 1, Any))
  {
    var n := NodeAt(root, p);
    ChildSpan(n, k);
    SearchInside(Flatten(n), i, n.items[k].node);
    ChildWalk(s, strings, root, p, off, k + 1, i + |Flatten(n.items[k].node)|);
  }

  /** The tokens of subnode k. */
  lemma ChildSpan(n: Node, k: nat)
    requires k < |n.items| && n.items[k].ChildItem?
    ensures var i := 1 + |FlattenItems(n.items[..k])|;
      && Spans(Flatten(n), i, Flatten(n.items[k].node))
      && 1 + |FlattenItems(n.items[..k + 1])| == i + |Flatten(n.items[k].node)|
      && Flatten(n)[i].Begin?
  {
    var m := n.items[k].node;
    var a, c := FlattenItems(n.items[..k]), FlattenItems(n.items[k + 1..]);
    CutAround(n.items, k);
    FlattenMiddle(n.items[..k], [n.items[k]], n.items[k + 1..]);
    FlattenOne(n.items[k]);
    FlattenConcat(n.items[..k], [n.items[k]]);
    FlattenEnds(n);
    FlattenEnds(m);
    SpanParts(Flatten(n), 1, a + Flatten(m), c);
    SpanParts(Flatten(n), 1, a, Flatten(m));
    SpanAt(Flatten(n), 1 + |a|, Flatten(m), 0);
  }

  lemma ScanInside(ts: seq<Token>, n: Node, k: nat, i: nat)
    requires ts == Flatten(n) && k < |n.items| && n.items[k].ChildItem? && i == 1 + |FlattenItems(n.items[..k])|
    ensures i < |ts| && Scan(ts, i + 1, 1) != -1
  {
    ChildSpan(n, k);
    PrefixSpan(n, k);
    FlattenEnds(n);
    ScanNode(ts, 0, n, 0);
    ScanItems(ts, 1, n.items[..k], 0);
  }

  lemma PrefixSpan(n: Node, k: nat)
    requires k <= |n.items|
    ensures Spans(Flatten(n), 1, FlattenItems(n.items[..k]))
  {
    FlattenEnds(n);
    CutAt(n.items, k);
    FlattenConcat(n.items[..k], n.items[k..]);
    SpanParts(Flatten(n), 1, FlattenItems(n.items[..k]), FlattenItems(n.items[k..]));
  }

  lemma SearchInside(ts: seq<Token>, i: nat, m: Node)
    requires Spans(ts, i, Flatten(m))
    ensures Search(ts, i + 1, 1, Any) == Search(ts, i + |Flatten(m)|, 0, Any)
  {
    var inner := FlattenItems(m.items);
    SpanParts(ts, i, [Begin(m.name, m.pad)] + inner, [EndNode]);
    SpanParts(ts, i, [Begin(m.name, m.pad)], inner);
    SpanAt(ts, i + 1 + |inner|, [EndNode], 0);
    SearchItems(ts, i + 1, m.items, 1, Any);
  }

  /** fdt_next_subnode on a tree. */
  method NextSubnode(s: seq<byte>, strings: seq<byte>, sub: int, ghost root: Node, ghost p: seq<nat>, ghost k: nat,
                     ghost off: int) returns (r: int)
    requires TreeOk(s, strings, root) && IsNodeAt(root, p, off) && k < |NodeAt(root, p).items|
    requires NodeAt(root, p).items[k].ChildItem?
    requires IsNodeAt(root, p + [k], sub)
    ensures IsNextChild(root, p, k + 1, r)
  {
    ghost var i := 1 + |FlattenItems(NodeAt(root, p).items[..k])|;
    SiblingWalk(s, strings, root, p, off, k, sub, i, i + 1);
    ghost var ts := Flatten(NodeAt(root, p));
    ghost var pos := Positions(off, ts);
    SiblingFound(s, ts, pos, i, sub, 1);
    r := NextSubnodeOffset(s, sub);
    ChildFound(root, p, off, k + 1, Search(ts, i + 1, 1, Any), r);
  }
}
