/**
 Reading a whole tree back: names with fdt_get_name, properties one after the other with
 fdt_first_property_offset and fdt_next_property_offset, and subnodes one after the other with
 fdt_first_subnode and fdt_next_subnode.
 */
module FdtReadBack {
  import opened Seqs
  import opened FdtFormat
  import opened FdtTree
  import opened FdtView
  import opened FdtScan
  import opened FdtRead
  import opened FdtLookup

  // ---------------------------------------------------------------- properties

  /** The properties read so far, and those of items k and on, are all. */
  ghost predicate PropsLeft(items: seq<Item>, strings: seq<byte>, k: nat, props: seq<Property>) {
    && k <= |items| && NamesOk(strings, FlattenItems(items)) && NamesOk(strings, FlattenItems(items[k..]))
    && props + Props(items[k..], strings) == Props(items, strings)
  }

  lemma PropsStart(items: seq<Item>, strings: seq<byte>)
    requires NamesOk(strings, FlattenItems(items))
    ensures PropsLeft(items, strings, 0, [])
  {
    assert items[0..] == items;
    NothingBetween(Props(items, strings), []);
  }

  lemma PropsOver(items: seq<Item>, strings: seq<byte>, k: nat, props: seq<Property>)
    requires PropsLeft(items, strings, k, props) && k < |items|
    ensures NamesOk(strings, FlattenItem(items[k]))
    ensures PropsLeft(items, strings, k + 1, props + PropOf(items[k], strings))
  {
    assert items[k..][0] == items[k] && items[k..][1..] == items[k + 1..];
    HeadIsOk(items[k..], strings);
    Assoc(props, PropOf(items[k], strings), Props(items[k + 1..], strings));
  }

  lemma {:induction false} PropsOverNops(items: seq<Item>, strings: seq<byte>, k: nat, l: nat, props: seq<Property>)
    requires PropsLeft(items, strings, k, props) && k <= l <= |items| && forall i :: k <= i < l ==> items[i].NopItem?
    ensures PropsLeft(items, strings, l, props)
    decreases l - k
  {
    if k < l {
      PropsOver(items, strings, k, props);
      NothingBetween(props, []);
      PropsOverNops(items, strings, k + 1, l, props);
    }
  }

  lemma PropsDone(items: seq<Item>, strings: seq<byte>, k: nat, props: seq<Property>)
    requires PropsLeft(items, strings, k, props) && forall i :: k <= i < |items| ==> !items[i].PropItem?
    ensures props == Props(items, strings)
  {
    NoProps(items[k..], strings);
    NothingBetween(props, []);
  }

  /** Up to the first subnode there is one token for each item. */
  lemma {:induction false} ItemToken(items: seq<Item>, k: nat)
    requires k < FirstChild(items)
    ensures k < |FlattenItems(items)| && FlattenItem(items[k]) == [FlattenItems(items)[k]]
  {
    if k > 0 { ItemToken(items[1..], k - 1); }
  }

  lemma NodeToken(n: Node, k: nat)
    requires k < FirstChild(n.items)
    ensures k + 1 < |Flatten(n)| && FlattenItem(n.items[k]) == [Flatten(n)[k + 1]]
  {
    ItemToken(n.items, k);
    FlattenEnds(n);
    SpanAt(Flatten(n), 1, FlattenItems(n.items), k);
  }

  /** The token behind the properties and no-ops. */
  lemma AfterProps(n: Node)
    ensures var f := FirstChild(n.items); f + 1 < |Flatten(n)| && !Flatten(n)[f + 1].Prop? && !Flatten(n)[f + 1].Nop?
  {
    FlattenEnds(n);
    SkipPropsFinds(Flatten(n), 1, n.items);
  }

  /** Where the walk over the properties of node n stands: at the property of item k, or behind the last. */
  ghost predicate AtProp(n: Node, strings: seq<byte>, pos: seq<int>, k: nat, r: int, props: seq<Property>) {
    StandsAtProp(n, strings, pos, k, r, props) == true
  }

  ghost predicate StandsAtProp(n: Node, strings: seq<byte>, pos: seq<int>, k: nat, r: int, props: seq<Property>) {
    && PropsLeft(n.items, strings, k, props) && k <= FirstChild(n.items) && |pos| == |Flatten(n)| + 1
    && if r < 0 then k == FirstChild(n.items)
      else k < FirstChild(n.items) && n.items[k].PropItem? && k + 1 < |pos| && r == pos[k + 1]
  }

  /** From before item k the search comes to the next property. */
  lemma NextAtProp(s: seq<byte>, strings: seq<byte>, n: Node, pos: seq<int>, k: nat, cur: int, props: seq<Property>)
    returns (l: nat)
    requires NodeLaid(s, strings, Flatten(n), pos) && PropsLeft(n.items, strings, k, props) && k <= FirstChild(n.items)
    requires k + 1 < |Flatten(n)| && cur == pos[k + 1]
    ensures k <= l && AtProp(n, strings, pos, l, PropFrom(s, cur), props)
  {
    var ts, f := Flatten(n), FirstChild(n.items);
    var j := PropTokens(s, ts, pos, k + 1, cur);
    AfterProps(n);
    l := j - 1;
    assert j <= f + 1;
    forall i | k <= i < l ensures n.items[i].NopItem? {
      NodeToken(n, i);
      assert ts[i + 1].Nop?;
    }
    PropsOverNops(n.items, strings, k, l, props);
    if l < f { NodeToken(n, l); }
  }

  /** The property at hand is read. */
  lemma PropRead(s: seq<byte>, strings: seq<byte>, n: Node, pos: seq<int>, k: nat, r: int, props: seq<Property>)
    requires NodeLaid(s, strings, Flatten(n), pos) && AtProp(n, strings, pos, k, r, props) && r >= 0
    ensures k + 2 < |pos| && r % 4 == 0 && TagAt(s, r) == Step(PROP, pos[k + 2]) && r + 12 <= |s|
    ensures var nameoff, len := WordAt(s, r + 8), WordAt(s, r + 4);
      && NameOk(strings, nameoff) && r + 12 + len <= |s|
      && PropsLeft(n.items, strings, k + 1, props + [Property(StringAt(strings, nameoff), s[r + 12..r + 12 + len])])
  {
    NodeToken(n, k);
    TokenRead(s, strings, Flatten(n), pos, k + 1, r);
    PropsOver(n.items, strings, k, props);
  }

  /** A property token as it is read. */
  lemma TokenRead(s: seq<byte>, strings: seq<byte>, ts: seq<Token>, pos: seq<int>, i: nat, r: int)
    requires NodeLaid(s, strings, ts, pos) && i < |ts| && ts[i].Prop? && i + 1 < |pos| && r == pos[i] >= 0
    ensures r % 4 == 0 && TagAt(s, r) == Step(PROP, pos[i + 1]) && r + 12 <= |s| && WordAt(s, r + 8) == ts[i].nameoff
    ensures WordAt(s, r + 4) == |ts[i].value| && r + 12 + |ts[i].value| <= |s|
    ensures s[r + 12..r + 12 + |ts[i].value|] == ts[i].value
    ensures NameOk(strings, ts[i].nameoff)
  {
    assert LaidAt(s, ts[i], pos[i], pos[i + 1]);
    assert NamedOk(strings, ts[i]);
    HeldIs(s, r + 12, ts[i].value);
  }

  /** The property found at an offset, as the bytes have it. */
  function PropertyAt(s: seq<byte>, strings: seq<byte>, r: int): Property
    requires 0 <= r && r + 12 <= |s| && r + 12 + WordAt(s, r + 4) <= |s| && NameOk(strings, WordAt(s, r + 8))
  {
    Property(StringAt(strings, WordAt(s, r + 8)), s[r + 12..r + 12 + WordAt(s, r + 4)])
  }

  /** The property at hand is read, and the search goes on behind it. */
  lemma PropStep(s: seq<byte>, strings: seq<byte>, n: Node, pos: seq<int>, k: nat, r: int, props: seq<Property>)
    returns (l: nat)
    requires NodeLaid(s, strings, Flatten(n), pos) && AtProp(n, strings, pos, k, r, props) && r >= 0
    ensures r % 4 == 0 && TagAt(s, r).tag == PROP && r + 12 <= |s| && r + 12 + WordAt(s, r + 4) <= |s|
    ensures NameOk(strings, WordAt(s, r + 8))
    ensures k < l && AtProp(n, strings, pos, l, PropFrom(s, TagAt(s, r).next), props + [PropertyAt(s, strings, r)])
  {
    PropRead(s, strings, n, pos, k, r, props);
    AfterProps(n);
    l := NextAtProp(s, strings, n, pos, k + 1, pos[k + 2], props + [PropertyAt(s, strings, r)]);
  }

  lemma PropsBehind(n: Node, strings: seq<byte>, pos: seq<int>, k: nat, r: int, props: seq<Property>)
    requires AtProp(n, strings, pos, k, r, props)
      && forall i :: FirstChild(n.items) <= i < |n.items| ==> !n.items[i].PropItem?
    ensures k < |pos| && (r < 0 ==> NamesOk(strings, FlattenItems(n.items)) && props == Props(n.items, strings))
  {
    AfterProps(n);
    if r < 0 { PropsDone(n.items, strings, k, props); }
  }

  /** All properties of a node. */
  method ReadProps(s: seq<byte>, strings: seq<byte>, off: int, ghost root: Node, ghost p: seq<nat>)
    returns (props: seq<Property>)
    requires TreeOk(s, strings, root) && IsNodeAt(root, p, off)
    ensures NamesOk(strings, FlattenItems(NodeAt(root, p).items)) && props == Props(NodeAt(root, p).items, strings)
  {
    ghost var n, pos, k := ReadStart(s, strings, off, root, p);
    props := [];
    var r := FirstPropertyOffset(s, off);
    while r >= 0
      invariant AtProp(n, strings, pos, k, r, props)
      decreases r >= 0, |pos| - k
    {
      PropsBehind(n, strings, pos, k, r, props);
      k := PropStep(s, strings, n, pos, k, r, props);
      props := props + [PropertyAt(s, strings, r)];
      r := NextPropertyOffset(s, r);
    }
    PropsBehind(n, strings, pos, k, r, props);
  }

  lemma ReadStart(s: seq<byte>, strings: seq<byte>, off: int, root: Node, p: seq<nat>)
    returns (n: Node, pos: seq<int>, k: nat)
    requires TreeOk(s, strings, root) && IsNodeAt(root, p, off)
    ensures n == NodeAt(root, p) && NodeLaid(s, strings, Flatten(n), pos) && CheckNode(s, off) >= 0
    ensures NamesOk(strings, FlattenItems(n.items)) && AtProp(n, strings, pos, k, PropFrom(s, CheckNode(s, off)), [])
    ensures forall i :: FirstChild(n.items) <= i < |n.items| ==> !n.items[i].PropItem?
  {
    n := NodeAt(root, p);
    SearchTree(s, strings, root, p, off, Any);
    NodeIsLaid(s, strings, root, p, off);
    pos := Positions(off, Flatten(n));
    AtNodeChecks(s, Flatten(n), pos, 0, off, 0);
    NodeItemsOk(s, strings, root, p);
    PropsStart(n.items, strings);
    AfterProps(n);
    k := NextAtProp(s, strings, n, pos, 0, pos[1], []);
  }

  /** The items of a node of a well-formed tree. */
  lemma NodeItemsOk(s: seq<byte>, strings: seq<byte>, root: Node, p: seq<nat>)
    requires TreeOk(s, strings, root) && IsPath(root, p)
    ensures NamesOk(strings, Flatten(NodeAt(root, p))) && NamesOk(strings, FlattenItems(NodeAt(root, p).items))
    ensures PropsFirst(NodeAt(root, p).items)
    ensures forall i ::
      FirstChild(NodeAt(root, p).items) <= i < |NodeAt(root, p).items| ==> !NodeAt(root, p).items[i].PropItem?
  {
    OpenTree(s, strings, root);
    NodeNamesOk(root, p, strings);
    ItemsAreOk(NodeAt(root, p), strings);
    OrderedAt(root, p);
    NoneBehind(NodeAt(root, p).items);
  }

  lemma NoneBehind(items: seq<Item>)
    requires PropsFirst(items)
    ensures forall i :: FirstChild(items) <= i < |items| ==> !items[i].PropItem?
  {
  }

  lemma {:induction false} OrderedAt(root: Node, p: seq<nat>)
    requires Ordered(root) && IsPath(root, p)
    ensures Ordered(NodeAt(root, p))
    decreases |p|
  {
    if p != [] { OrderedAt(root.items[p[0]].node, p[1..]); }
  }

  // ---------------------------------------------------------------- subnodes

  /** The subnodes read so far, and those among items k and on, are all. */
  ghost predicate ChildrenLeft(items: seq<Item>, strings: seq<byte>, k: nat, children: seq<View>) {
    && k <= |items| && NamesOk(strings, FlattenItems(items)) && NamesOk(strings, FlattenItems(items[k..]))
    && children + Children(items[k..], strings) == Children(items, strings)
  }

  lemma ChildrenStart(items: seq<Item>, strings: seq<byte>)
    requires NamesOk(strings, FlattenItems(items))
    ensures ChildrenLeft(items, strings, 0, [])
  {
    assert items[0..] == items;
    NothingBetween(Children(items, strings), []);
  }

  lemma ChildrenOver(items: seq<Item>, strings: seq<byte>, k: nat, children: seq<View>)
    requires ChildrenLeft(items, strings, k, children) && k < |items|
    ensures NamesOk(strings, FlattenItem(items[k]))
    ensures ChildrenLeft(items, strings, k + 1, children + ChildOf(items[k], strings))
  {
    assert items[k..][0] == items[k] && items[k..][1..] == items[k + 1..];
    HeadIsOk(items[k..], strings);
    Assoc(children, ChildOf(items[k], strings), Children(items[k + 1..], strings));
  }

  lemma {:induction false} ChildrenOverOthers(items: seq<Item>, strings: seq<byte>, k: nat, l: nat, children: seq<View>)
    requires ChildrenLeft(items, strings, k, children) && k <= l <= |items|
      && forall i :: k <= i < l ==> !items[i].ChildItem?
    ensures ChildrenLeft(items, strings, l, children)
    decreases l - k
  {
    if k < l {
      ChildrenOver(items, strings, k, children);
      NothingBetween(children, []);
      ChildrenOverOthers(items, strings, k + 1, l, children);
    }
  }

  lemma ChildrenDone(items: seq<Item>, strings: seq<byte>, children: seq<View>)
    requires ChildrenLeft(items, strings, |items|, children)
    ensures children == Children(items, strings)
  {
    assert items[|items|..] == [];
    NothingBetween(children, []);
  }

  /** A whole node with all that is below it: what is read is what the bytes mean. */
  method ReadNode(s: seq<byte>, strings: seq<byte>, off: int, ghost root: Node, ghost p: seq<nat>) returns (v: View)
    requires TreeOk(s, strings, root) && IsNodeAt(root, p, off)
    ensures NamesOk(strings, Flatten(NodeAt(root, p))) && v == ViewOf(NodeAt(root, p), strings)
    decreases NodeAt(root, p), 2
  {
    NodeItemsOk(s, strings, root, p);
    RootOrNode(s, strings, root, p, off);
    var err, name := LookupName(s, strings, off, root, p);
    var props := ReadProps(s, strings, off, root, p);
    var children := ReadChildren(s, strings, off, root, p);
    v := View(name, props, children);
  }

  /** The offset of a node passes the check. */
  lemma RootOrNode(s: seq<byte>, strings: seq<byte>, root: Node, p: seq<nat>, off: int)
    requires TreeOk(s, strings, root) && IsNodeAt(root, p, off)
    ensures CheckNode(s, off) >= 0 && off >= 0
  {
    SearchTree(s, strings, root, p, off, Any);
    AtNodeChecks(s, Flatten(NodeAt(root, p)), Positions(off, Flatten(NodeAt(root, p))), 0, off, 0);
  }

  method ReadChildren(s: seq<byte>, strings: seq<byte>, off: int, ghost root: Node, ghost p: seq<nat>)
    returns (children: seq<View>)
    requires TreeOk(s, strings, root) && IsNodeAt(root, p, off)
    ensures NamesOk(strings, FlattenItems(NodeAt(root, p).items))
    ensures children == Children(NodeAt(root, p).items, strings)
    decreases NodeAt(root, p), 1
  {
    NodeItemsOk(s, strings, root, p);
    RootOrNode(s, strings, root, p, off);
    children := [];
    ghost var k: nat := 0;
    ChildrenStart(NodeAt(root, p).items, strings);
    var sub := FirstSubnode(s, strings, off, root, p);
    assert AtChild(root, p, strings, k, sub, children);
    while sub >= 0
      invariant AtChild(root, p, strings, k, sub, children)
      decreases sub >= 0, |NodeAt(root, p).items| - k
    {
      children, sub, k := ReadChild(s, strings, off, root, p, k, sub, children);
    }
    ChildrenBehind(root, p, strings, k, sub, children);
  }

  /** The subnode at hand, and the step to the next. */
  method ReadChild(s: seq<byte>, strings: seq<byte>, ghost off: int, ghost root: Node, ghost p: seq<nat>, ghost k: nat,
                   sub: int, children: seq<View>)
    returns (children': seq<View>, sub': int, ghost k': nat)
    requires TreeOk(s, strings, root) && IsNodeAt(root, p, off) && AtChild(root, p, strings, k, sub, children)
    requires sub >= 0
    ensures k < k' <= |NodeAt(root, p).items| && AtChild(root, p, strings, k', sub', children')
    decreases NodeAt(root, p), 0
  {
    ghost var c := ChildAt(root, p, strings, k, sub, children);
    var child := ReadNode(s, strings, sub, root, p + [c]);
    sub' := NextSubnode(s, strings, sub, root, p, c, off);
    ChildStep(root, p, strings, k, c, sub', children);
    children', k' := children + [child], c + 1;
  }

  /** Where the walk over the subnodes stands: at the one of item NextChild(k), or behind the last. */
  ghost predicate AtChild(root: Node, p: seq<nat>, strings: seq<byte>, k: nat, sub: int, children: seq<View>)
    requires IsPath(root, p)
  {
    StandsAtChild(root, p, strings, k, sub, children) == true
  }

  ghost predicate StandsAtChild(root: Node, p: seq<nat>, strings: seq<byte>, k: nat, sub: int, children: seq<View>)
    requires IsPath(root, p)
  {
    ChildrenLeft(NodeAt(root, p).items, strings, k, children) && IsNextChild(root, p, k, sub)
  }

  lemma ChildAt(root: Node, p: seq<nat>, strings: seq<byte>, k: nat, sub: int, children: seq<View>) returns (c: nat)
    requires IsPath(root, p) && AtChild(root, p, strings, k, sub, children) && sub >= 0
    ensures k <= c < |NodeAt(root, p).items| && c == NextChild(NodeAt(root, p).items, k)
    ensures NodeAt(root, p).items[c].ChildItem?
    ensures IsNodeAt(root, p + [c], sub) && NodeAt(root, p + [c]) == NodeAt(root, p).items[c].node
  {
    c := NextChild(NodeAt(root, p).items, k);
    SubPath(root, p, c);
  }

  /** The subnode of item c is read, and the walk stands at the next. */
  lemma ChildStep(root: Node, p: seq<nat>, strings: seq<byte>, k: nat, c: nat, sub: int, children: seq<View>)
    requires IsPath(root, p) && k <= c < |NodeAt(root, p).items| && c == NextChild(NodeAt(root, p).items, k)
    requires ChildrenLeft(NodeAt(root, p).items, strings, k, children) && NodeAt(root, p).items[c].ChildItem?
    requires IsNextChild(root, p, c + 1, sub)
    ensures NamesOk(strings, Flatten(NodeAt(root, p).items[c].node))
    ensures AtChild(root, p, strings, c + 1, sub, children + [ViewOf(NodeAt(root, p).items[c].node, strings)])
  {
    ChildrenOverOthers(NodeAt(root, p).items, strings, k, c, children);
    ChildrenOver(NodeAt(root, p).items, strings, c, children);
  }

  lemma ChildrenBehind(root: Node, p: seq<nat>, strings: seq<byte>, k: nat, sub: int, children: seq<View>)
    requires IsPath(root, p) && AtChild(root, p, strings, k, sub, children) && sub < 0
    ensures NamesOk(strings, FlattenItems(NodeAt(root, p).items))
    ensures children == Children(NodeAt(root, p).items, strings)
  {
    var items := NodeAt(root, p).items;
    ChildrenOverOthers(items, strings, k, |items|, children);
    ChildrenDone(items, strings, children);
  }
}
