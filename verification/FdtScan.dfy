/**
 Walks over a node's tokens that keep a depth, as fdt_next_node and its callers do, and what they
 find in terms of the node's items.
 */
module FdtScan {
  import opened Seqs
  import opened FdtFormat
  import opened FdtTree
  import opened FdtView

  /** The place after the end tag that takes the depth below zero, or -1. */
  function Scan(ts: seq<Token>, i: nat, depth: nat): int
    decreases |ts| - i
  {
    if i >= |ts| then -1
    else
      match ts[i]
      case Begin(_, _) => Scan(ts, i + 1, depth + 1)
      case EndNode => if depth == 0 then i + 1 else Scan(ts, i + 1, depth - 1)
      case End => -1
      case _ => Scan(ts, i + 1, depth)
  }

  /** Tokens x stand in ts from place i on. */
  ghost predicate Spans(ts: seq<Token>, i: nat, x: seq<Token>) {
    i + |x| <= |ts| && ts[i..i + |x|] == x
  }

  lemma SpanParts(ts: seq<Token>, i: nat, x: seq<Token>, y: seq<Token>)
    requires Spans(ts, i, x + y)
    ensures Spans(ts, i, x) && Spans(ts, i + |x|, y)
  {
    var n, m := i + |x|, i + |x| + |y|;
    assert ts[i..m] == ts[i..n] + ts[n..m];
    assert (x + y)[..|x|] == x && (x + y)[|x|..] == y;
    assert ts[i..m][..|x|] == ts[i..n] && ts[i..m][|x|..] == ts[n..m];
  }

  lemma SpanAt(ts: seq<Token>, i: nat, x: seq<Token>, j: nat)
    requires Spans(ts, i, x) && j < |x|
    ensures ts[i + j] == x[j]
  {
    assert ts[i..i + |x|][j] == ts[i + j];
  }

  /** Whole items leave the depth as it was. */
  lemma {:induction false} ScanItems(ts: seq<Token>, i: nat, items: seq<Item>, depth: nat)
    requires Spans(ts, i, FlattenItems(items))
    ensures Scan(ts, i, depth) == Scan(ts, i + |FlattenItems(items)|, depth)
    decreases items
  {
    if items != [] {
      SpanParts(ts, i, FlattenItem(items[0]), FlattenItems(items[1..]));
      ScanItem(ts, i, items[0], depth);
      ScanItems(ts, i + |FlattenItem(items[0])|, items[1..], depth);
    }
  }

  lemma {:induction false} ScanItem(ts: seq<Token>, i: nat, item: Item, depth: nat)
    requires Spans(ts, i, FlattenItem(item))
    ensures Scan(ts, i, depth) == Scan(ts, i + |FlattenItem(item)|, depth)
    decreases item
  {
    ItemStarts(item);
    SpanAt(ts, i, FlattenItem(item), 0);
    if item.ChildItem? { ScanNode(ts, i, item.node, depth); }
  }

  lemma {:induction false} ScanNode(ts: seq<Token>, i: nat, n: Node, depth: nat)
    requires Spans(ts, i, Flatten(n))
    ensures i + |Flatten(n)| <= |ts| && Scan(ts, i, depth) == Scan(ts, i + |Flatten(n)|, depth)
    ensures depth == 0 ==> Scan(ts, i + 1, 0) == i + |Flatten(n)|
    decreases n
  {
    var inner := FlattenItems(n.items);
    SpanParts(ts, i, [Begin(n.name, n.pad)] + inner, [EndNode]);
    SpanParts(ts, i, [Begin(n.name, n.pad)], inner);
    SpanAt(ts, i, [Begin(n.name, n.pad)], 0);
    SpanAt(ts, i + 1 + |inner|, [EndNode], 0);
    ScanItems(ts, i + 1, n.items, depth + 1);
    if depth == 0 { ScanItems(ts, i + 1, n.items, 0); }
  }

  /** How many nodes are open before token i. */
  function Level(ts: seq<Token>, i: nat): int
    requires i <= |ts|
  {
    if i == 0 then 0
    else Level(ts, i - 1) + (if ts[i - 1].Begin? then 1 else if ts[i - 1].EndNode? then -1 else 0)
  }

  // ---------------------------------------------------------------- subnodes by name

  /** A node name matches with or, if no unit address is asked for, without its unit address. */
  predicate NameMatches(node: seq<byte>, name: seq<byte>) {
    node == name || (64 !in name && |node| > |name| && node[..|name|] == name && node[|name|] == 64)
  }

  /** A node name without its unit address: the bytes before the first at sign. */
  function BaseName(node: seq<byte>): (base: seq<byte>)
    ensures 64 !in base && base <= node && (|base| < |node| ==> node[|base|] == 64)
    decreases |node|
  {
    if node == [] || node[0] == 64 then [] else [node[0]] + BaseName(node[1..])
  }

  /** What a name stands for: with a unit address exactly itself, without one every node of that base name. */
  predicate Called(node: seq<byte>, name: seq<byte>) { if 64 in name then node == name else BaseName(node) == name }

  lemma MatchIsCalled(node: seq<byte>, name: seq<byte>)
    ensures NameMatches(node, name) <==> Called(node, name)
  {
    var base := BaseName(node);
    if 64 !in name && NameMatches(node, name) {
      assert |base| >= |name|;
    }
  }

  /** What a search for subnodes looks for. */
  datatype Pattern = Any | Named(name: seq<byte>)

  predicate Fits(pat: Pattern, node: seq<byte>) { pat.Any? || NameMatches(node, pat.name) }

  /** The place of the first node of depth one whose name matches, before the end tag that closes depth zero; or -1. */
  function Search(ts: seq<Token>, i: nat, depth: nat, pat: Pattern): int
    decreases |ts| - i
  {
    if i >= |ts| then -1
    else
      match ts[i]
      case Begin(node, _) => if depth == 0 && Fits(pat, node) then i else Search(ts, i + 1, depth + 1, pat)
      case EndNode => if depth == 0 then -1 else Search(ts, i + 1, depth - 1, pat)
      case End => -1
      case _ => Search(ts, i + 1, depth, pat)
  }

  lemma {:induction false} SearchItems(ts: seq<Token>, i: nat, items: seq<Item>, depth: nat, pat: Pattern)
    requires Spans(ts, i, FlattenItems(items)) && depth > 0
    ensures Search(ts, i, depth, pat) == Search(ts, i + |FlattenItems(items)|, depth, pat)
    decreases items
  {
    if items != [] {
      SpanParts(ts, i, FlattenItem(items[0]), FlattenItems(items[1..]));
      SearchItem(ts, i, items[0], depth, pat);
      SearchItems(ts, i + |FlattenItem(items[0])|, items[1..], depth, pat);
    }
  }

  lemma {:induction false} SearchItem(ts: seq<Token>, i: nat, item: Item, depth: nat, pat: Pattern)
    requires Spans(ts, i, FlattenItem(item)) && (depth > 0 || !IsMatch(item, pat))
    ensures Search(ts, i, depth, pat) == Search(ts, i + |FlattenItem(item)|, depth, pat)
    decreases item
  {
    ItemStarts(item);
    SpanAt(ts, i, FlattenItem(item), 0);
    if item.ChildItem? { SearchNode(ts, i, item.node, depth, pat); }
  }

  lemma {:induction false} SearchNode(ts: seq<Token>, i: nat, n: Node, depth: nat, pat: Pattern)
    requires Spans(ts, i, Flatten(n)) && (depth > 0 || !Fits(pat, n.name))
    ensures i + |Flatten(n)| <= |ts| && Search(ts, i, depth, pat) == Search(ts, i + |Flatten(n)|, depth, pat)
    decreases n
  {
    var inner := FlattenItems(n.items);
    SpanParts(ts, i, [Begin(n.name, n.pad)] + inner, [EndNode]);
    SpanParts(ts, i, [Begin(n.name, n.pad)], inner);
    SpanAt(ts, i, [Begin(n.name, n.pad)], 0);
    SpanAt(ts, i + 1 + |inner|, [EndNode], 0);
    SearchItems(ts, i + 1, n.items, depth + 1, pat);
  }

  predicate IsMatch(item: Item, pat: Pattern) { item.ChildItem? && Fits(pat, item.node.name) }

  /** The first subnode whose name matches, or the number of items. */
  function FirstMatch(items: seq<Item>, pat: Pattern): (k: nat)
    ensures k <= |items|
    ensures k < |items| ==> IsMatch(items[k], pat)
    ensures forall j :: 0 <= j < k ==> !IsMatch(items[j], pat)
  {
    if items == [] || IsMatch(items[0], pat) then 0 else 1 + FirstMatch(items[1..], pat)
  }

  lemma ItemStarts(item: Item)
    ensures |FlattenItem(item)| > 0
    ensures item.ChildItem? ==> FlattenItem(item)[0] == Begin(item.node.name, item.node.pad)
  {
  }

  /** Searching a node's tokens finds the first subnode that matches. */
  lemma {:induction false} SearchFinds(ts: seq<Token>, i: nat, items: seq<Item>, pat: Pattern)
    requires Spans(ts, i, FlattenItems(items)) && Spans(ts, i + |FlattenItems(items)|, [EndNode])
    ensures var k := FirstMatch(items, pat);
      Search(ts, i, 0, pat) == if k < |items| then i + |FlattenItems(items[..k])| else -1
    decreases items
  {
    if items == [] {
      SpanAt(ts, i, [EndNode], 0);
    } else if IsMatch(items[0], pat) {
      SearchHere(ts, i, items, pat);
    } else {
      SearchPast(ts, i, items, pat);
      SearchFinds(ts, i + |FlattenItem(items[0])|, items[1..], pat);
      MatchBehind(items, pat, FirstMatch(items[1..], pat));
    }
  }

  lemma SearchHere(ts: seq<Token>, i: nat, items: seq<Item>, pat: Pattern)
    requires Spans(ts, i, FlattenItems(items)) && items != [] && IsMatch(items[0], pat)
    ensures Search(ts, i, 0, pat) == i && FirstMatch(items, pat) == 0 && FlattenItems(items[..0]) == []
  {
    SpanParts(ts, i, FlattenItem(items[0]), FlattenItems(items[1..]));
    ItemStarts(items[0]);
    SpanAt(ts, i, FlattenItem(items[0]), 0);
    assert items[..0] == [];
  }

  lemma SearchPast(ts: seq<Token>, i: nat, items: seq<Item>, pat: Pattern)
    requires Spans(ts, i, FlattenItems(items)) && Spans(ts, i + |FlattenItems(items)|, [EndNode])
    requires items != [] && !IsMatch(items[0], pat)
    ensures var j := i + |FlattenItem(items[0])|;
      && Search(ts, i, 0, pat) == Search(ts, j, 0, pat) && Spans(ts, j, FlattenItems(items[1..]))
      && j + |FlattenItems(items[1..])| == i + |FlattenItems(items)|
  {
    SpanParts(ts, i, FlattenItem(items[0]), FlattenItems(items[1..]));
    ItemStarts(items[0]);
    SpanAt(ts, i, FlattenItem(items[0]), 0);
    SearchItem(ts, i, items[0], 0, pat);
  }

  lemma MatchBehind(items: seq<Item>, pat: Pattern, k: nat)
    requires items != [] && !IsMatch(items[0], pat) && k == FirstMatch(items[1..], pat)
    ensures FirstMatch(items, pat) == k + 1
    ensures k + 1 < |items| ==>
      |FlattenItems(items[..k + 1])| == |FlattenItem(items[0])| + |FlattenItems(items[1..][..k])|
  {
    if k + 1 < |items| { FlattenPrefix(items, k); }
  }

  lemma FlattenPrefix(items: seq<Item>, k: nat)
    requires k < |items|
    ensures FlattenItems(items[..k + 1]) == FlattenItem(items[0]) + FlattenItems(items[1..][..k])
  {
    assert items[..k + 1][1..] == items[1..][..k];
  }

  // ---------------------------------------------------------------- properties by name

  /** The first property of a name among the items before any subnode, or the number of items. */
  function FirstProp(items: seq<Item>, strings: seq<byte>, name: seq<byte>): (k: nat)
    requires NamesOk(strings, FlattenItems(items))
    ensures k <= |items|
    ensures k < |items| ==> items[k].PropItem?
    decreases items
  {
    if items == [] || items[0].ChildItem? then |items|
    else
      HeadIsOk(items, strings);
      if items[0].PropItem? && (assert NamedOk(strings, FlattenItem(items[0])[0]); StringAt(strings, items[0].nameoff)
        == name)
      then 0 else 1 + FirstProp(items[1..], strings, name)
  }

  lemma NameOf(item: Item, strings: seq<byte>)
    requires NamesOk(strings, FlattenItem(item)) && item.PropItem?
    ensures NameOk(strings, item.nameoff)
  {
    assert NamedOk(strings, FlattenItem(item)[0]);
  }

  /** The place of the first property of a name, over properties and no-ops only, or -1. */
  function FindProp(ts: seq<Token>, i: nat, strings: seq<byte>, name: seq<byte>): int
    requires NamesOk(strings, ts)
    decreases |ts| - i
  {
    if i >= |ts| then -1
    else
      match ts[i]
      case Prop(nameoff, _, _) =>
        assert NamedOk(strings, ts[i]);
        if StringAt(strings, nameoff) == name then i else FindProp(ts, i + 1, strings, name)
      case Nop => FindProp(ts, i + 1, strings, name)
      case _ => -1
  }

  lemma {:induction false} FindPropFinds(ts: seq<Token>, i: nat, items: seq<Item>, strings: seq<byte>, name: seq<byte>)
    requires Spans(ts, i, FlattenItems(items)) && Spans(ts, i + |FlattenItems(items)|, [EndNode])
    requires NamesOk(strings, ts) && NamesOk(strings, FlattenItems(items))
    ensures var k := FirstProp(items, strings, name);
      FindProp(ts, i, strings, name) == (if k < |items| then i + k else -1)
        && (k < |items| ==> |FlattenItems(items[..k])| == k)
    decreases items
  {
    if items == [] {
      SpanAt(ts, i, [EndNode], 0);
    } else {
      SpanParts(ts, i, FlattenItem(items[0]), FlattenItems(items[1..]));
      ItemStarts(items[0]);
      SpanAt(ts, i, FlattenItem(items[0]), 0);
      if !items[0].ChildItem? {
        HeadIsOk(items, strings);
        FindPropFinds(ts, i + 1, items[1..], strings, name);
        if FirstProp(items[1..], strings, name) < |items[1..]| {
          FlattenPrefix(items, FirstProp(items[1..], strings, name));
        }
      }
    }
  }

  predicate NoneNamed(props: seq<Property>, name: seq<byte>) {
    forall j :: 0 <= j < |props| ==> props[j].name != name
  }

  /** No property before the first of a name has that name. */
  lemma {:induction false} OtherNames(items: seq<Item>, strings: seq<byte>, name: seq<byte>)
    requires NamesOk(strings, FlattenItems(items)) && PropsFirst(items)
    ensures var k := FirstProp(items, strings, name);
      NamesOk(strings, FlattenItems(items[..k])) && NoneNamed(Props(items[..k], strings), name)
    decreases items
  {
    var k := FirstProp(items, strings, name);
    if items == [] || k == 0 {
    } else if items[0].ChildItem? {
      NoProps(items, strings);
      assert items[..|items|] == items;
    } else {
      HeadIsOk(items, strings);
      OtherNames(items[1..], strings, name);
      assert items[..k] == [items[0]] + items[1..][..k - 1];
      OneMeans(items[0], strings);
      PropsConcat([items[0]], items[1..][..k - 1], strings);
      if items[0].PropItem? { NameOf(items[0], strings); }
    }
  }

  lemma {:induction false} FoundName(items: seq<Item>, strings: seq<byte>, name: seq<byte>)
    requires NamesOk(strings, FlattenItems(items))
    ensures var k := FirstProp(items, strings, name);
      k < |items| ==> NameOk(strings, items[k].nameoff) && StringAt(strings, items[k].nameoff) == name
    decreases items
  {
    if items != [] && !items[0].ChildItem? {
      HeadIsOk(items, strings);
      if items[0].PropItem? { NameOf(items[0], strings); }
      FoundName(items[1..], strings, name);
    }
  }

  lemma {:induction false} FirstNamedAt(a: seq<Property>, p: Property, c: seq<Property>)
    requires NoneNamed(a, p.name)
    ensures FirstNamed(a + [p] + c, p.name) == |a|
    decreases |a|
  {
    if a != [] {
      assert (a + [p] + c)[1..] == a[1..] + [p] + c;
      FirstNamedAt(a[1..], p, c);
    }
  }

  /** In terms of the meaning: the first item of a name is the first property of that name. */
  lemma FirstPropMeans(items: seq<Item>, strings: seq<byte>, name: seq<byte>)
    requires NamesOk(strings, FlattenItems(items)) && PropsFirst(items)
    ensures var k := FirstProp(items, strings, name);
      && NamesOk(strings, FlattenItems(items[..k]))
      && FirstNamed(Props(items, strings), name) == |Props(items[..k], strings)|
      && (k == |items| ==> items[..k] == items)
      && (k < |items| ==> |Props(items[..k], strings)| < |Props(items, strings)|)
  {
    var k := FirstProp(items, strings, name);
    OtherNames(items, strings, name);
    if k == |items| {
      assert items[..k] == items;
    } else {
      FoundName(items, strings, name);
      SplitIsOk(items, k, strings);
      OneMeans(items[k], strings);
      CutAround(items, k);
      MiddleMeans(items[..k], [items[k]], items[k + 1..], strings);
      FirstNamedAt(Props(items[..k], strings), Property(name, items[k].value), Props(items[k + 1..], strings));
    }
  }

  lemma {:induction false} NoProps(items: seq<Item>, strings: seq<byte>)
    requires NamesOk(strings, FlattenItems(items)) && forall j :: 0 <= j < |items| ==> !items[j].PropItem?
    ensures Props(items, strings) == []
  {
    if items != [] {
      HeadIsOk(items, strings);
      NoProps(items[1..], strings);
    }
  }

  // ---------------------------------------------------------------- the end of the properties

  /** The first token from i on that is neither a property nor a no-op. */
  function SkipProps(ts: seq<Token>, i: nat): (j: nat)
    ensures i <= j && (j < |ts| ==> !ts[j].Prop? && !ts[j].Nop?)
    decreases |ts| - i
  {
    if i < |ts| && (ts[i].Prop? || ts[i].Nop?) then SkipProps(ts, i + 1) else i
  }

  /** The first item that is neither a property nor a no-op. */
  function FirstChild(items: seq<Item>): (k: nat)
    ensures k <= |items| && (k < |items| ==> items[k].ChildItem?)
    ensures forall i :: 0 <= i < k ==> !items[i].ChildItem?
  {
    if items == [] || items[0].ChildItem? then 0 else 1 + FirstChild(items[1..])
  }

  lemma {:induction false} SkipPropsFinds(ts: seq<Token>, i: nat, items: seq<Item>)
    requires Spans(ts, i, FlattenItems(items)) && Spans(ts, i + |FlattenItems(items)|, [EndNode])
    ensures SkipProps(ts, i) == i + FirstChild(items) < |ts|
    ensures |FlattenItems(items[..FirstChild(items)])| == FirstChild(items)
    decreases items
  {
    if items == [] {
      SpanAt(ts, i, [EndNode], 0);
    } else {
      SpanParts(ts, i, FlattenItem(items[0]), FlattenItems(items[1..]));
      ItemStarts(items[0]);
      SpanAt(ts, i, FlattenItem(items[0]), 0);
      if !items[0].ChildItem? {
        SkipPropsFinds(ts, i + 1, items[1..]);
        FlattenPrefix(items, FirstChild(items[1..]));
      }
    }
  }
}
