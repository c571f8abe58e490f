/**
 Writing a whole tree and reading it back: for any tree, what the sequential writer leaves in the
 buffer is a blob that means that tree.
 */
module FdtRoundTrip {
  import opened Seqs
  import opened FdtFormat
  import opened FdtTree
  import opened FdtView
  import opened FdtEdits
  import opened FdtFix
  import opened FdtBlob
  import opened Seal
  import opened FdtLookup
  import opened FdtHolding
  import opened FdtReserve
  import opened FdtReadBack
  import opened FdtWriter

  /** Names are C strings and values have 32-bit lengths. */
  ghost predicate Writable(v: View) {
    && NoNul(v.name) && PropsWritable(v.props)
    && forall i :: 0 <= i < |v.children| ==> Writable(v.children[i])
  }

  ghost predicate PropsWritable(props: seq<Property>) {
    forall i :: 0 <= i < |props| ==> NoNul(props[i].name) && |props[i].value| < LENGTHS
  }

  // ---------------------------------------------------------------- the room that a tree needs

  function PropCost(p: Property): int { |p.name| + 1 + 12 + Align4(|p.value|) }

  function PropsCost(props: seq<Property>): int {
    if props == [] then 0 else PropsCost(props[..|props| - 1]) + PropCost(props[|props| - 1])
  }

  function Cost(v: View): int
    decreases v, 1
  {
    4 + Align4(|v.name| + 1) + PropsCost(v.props) + ChildrenCost(v.children) + 4
  }

  function ChildrenCost(children: seq<View>): int
    decreases children, 0
  {
    if children == [] then 0 else ChildrenCost(children[..|children| - 1]) + Cost(children[|children| - 1])
  }

  lemma {:induction false} PropsCostGrows(props: seq<Property>, i: nat)
    requires i <= |props|
    ensures 0 <= PropsCost(props[..i]) <= PropsCost(props)
    decreases |props|
  {
    var n := |props| - 1;
    if i == |props| {
      assert props[..i] == props;
      if i > 0 { PropsCostGrows(props[..n], n); assert props[..n][..n] == props[..n]; }
    } else {
      PropsCostGrows(props[..n], i);
      assert props[..n][..i] == props[..i];
    }
  }

  lemma {:induction false} CostPositive(v: View)
    ensures Cost(v) >= 12
    decreases v, 1
  {
    PropsCostGrows(v.props, |v.props|);
    assert v.props[..|v.props|] == v.props;
    ChildrenCostPositive(v.children);
  }

  lemma {:induction false} ChildrenCostPositive(children: seq<View>)
    ensures ChildrenCost(children) >= 0
    decreases children, 0
  {
    if children != [] {
      ChildrenCostPositive(children[..|children| - 1]);
      CostPositive(children[|children| - 1]);
    }
  }

  lemma {:induction false} ChildrenCostGrows(children: seq<View>, i: nat)
    requires i <= |children|
    ensures 0 <= ChildrenCost(children[..i]) <= ChildrenCost(children)
    decreases |children|
  {
    var n := |children| - 1;
    if i == |children| {
      assert children[..i] == children;
      ChildrenCostPositive(children);
    } else {
      ChildrenCostGrows(children[..n], i);
      assert children[..n][..i] == children[..i];
      CostPositive(children[n]);
    }
  }

  // ---------------------------------------------------------------- what the calls for a tree answer

  ghost function AddProps(l: Ledger, props: seq<Property>): Outcome {
    if props == [] then Fits(l)
    else
      var n := |props| - 1;
      var o := AddProps(l, props[..n]);
      if o.Fits? then AddProp(o.ledger, props[n].name, props[n].value) else o
  }

  ghost function AddTree(l: Ledger, v: View): Outcome
    decreases v, 1
  {
    var o := Grab(l, 4 + Align4(|v.name| + 1));
    if o.Fits? then AddInside(o.ledger, v) else o
  }

  ghost function AddInside(l: Ledger, v: View): Outcome
    decreases v, 0, 1
  {
    var o := AddItems(l, v);
    if o.Fits? then Grab(o.ledger, 4) else o
  }

  ghost function AddItems(l: Ledger, v: View): Outcome
    decreases v, 0, 0
  {
    var o := AddProps(l, v.props);
    if o.Fits? then AddChildren(o.ledger, v.children) else o
  }

  ghost function AddChildren(l: Ledger, children: seq<View>): Outcome
    decreases children, 0
  {
    if children == [] then Fits(l)
    else
      var n := |children| - 1;
      var o := AddChildren(l, children[..n]);
      if o.Fits? then AddTree(o.ledger, children[n]) else o
  }

  /** The first call that fails decides. */
  lemma {:induction false} PropsFail(l: Ledger, props: seq<Property>, i: nat)
    requires i <= |props| && !AddProps(l, props[..i]).Fits?
    ensures AddProps(l, props) == AddProps(l, props[..i])
    decreases |props|
  {
    var n := |props| - 1;
    if i == |props| {
      assert props[..i] == props;
    } else {
      assert props[..n][..i] == props[..i];
      PropsFail(l, props[..n], i);
    }
  }

  lemma {:induction false} ChildrenFail(l: Ledger, children: seq<View>, i: nat)
    requires i <= |children| && !AddChildren(l, children[..i]).Fits?
    ensures AddChildren(l, children) == AddChildren(l, children[..i])
    decreases |children|
  {
    var n := |children| - 1;
    if i == |children| {
      assert children[..i] == children;
    } else {
      assert children[..n][..i] == children[..i];
      ChildrenFail(l, children[..n], i);
    }
  }

  lemma NextProps(l: Ledger, props: seq<Property>, i: nat)
    requires i < |props|
    ensures var o := AddProps(l, props[..i]);
      AddProps(l, props[..i + 1]) == if o.Fits? then AddProp(o.ledger, props[i].name, props[i].value) else o
  {
    assert props[..i + 1][..i] == props[..i];
  }

  lemma NextChildren(l: Ledger, children: seq<View>, i: nat)
    requires i < |children|
    ensures var o := AddChildren(l, children[..i]);
      AddChildren(l, children[..i + 1]) == if o.Fits? then AddTree(o.ledger, children[i]) else o
  {
    assert children[..i + 1][..i] == children[..i];
  }

  /** Items written so far, and what they mean with the strings table as it is. */
  ghost predicate ItemsMean(items: seq<Item>, strings: seq<byte>, props: seq<Property>, children: seq<View>) {
    ItemsMeanAll(items, strings, props, children) == true
  }

  ghost predicate ItemsMeanAll(items: seq<Item>, strings: seq<byte>, props: seq<Property>, children: seq<View>) {
    && NamesFixable(strings, FlattenItems(items)) && RawProps(items, strings) == props
      && RawChildren(items, strings) == children
    && PropsFirst(items) && ChildrenOrdered(items)
  }

  lemma NothingMeans(strings: seq<byte>)
    ensures ItemsMean([], strings, [], [])
  {
  }

  /** One more property, before any subnode. */
  lemma PropAdded(items: seq<Item>, more: seq<byte>, strings: seq<byte>, after: seq<byte>, props: seq<Property>,
                  item: Item, name: seq<byte>)
    requires ItemsMean(items, strings, props, []) && NoChild(items) && |more| + |strings| < WORDS
    requires after == more + strings
    requires item.PropItem? && Fixable(after, item.nameoff) && RawName(after, item.nameoff) == name
    ensures ItemsMean(items + [item], after, props + [Property(name, item.value)], []) && NoChild(items + [item])
    ensures FlattenItems(items + [item]) == FlattenItems(items) + FlattenItem(item)
  {
    RawItemsGrow(items, more, strings);
    FlattenOne(item);
    FlattenConcat(items, [item]);
    assert FixableAt(after, FlattenItems([item])[0]);
    RawProp(item, after);
    RawConcat(items, [item], after);
    PropsFirstConcat(items, [item]);
  }

  /** One more subnode. */
  lemma ChildAdded(items: seq<Item>, more: seq<byte>, strings: seq<byte>, after: seq<byte>, props: seq<Property>,
                   children: seq<View>, n: Node, v: View)
    requires ItemsMean(items, strings, props, children) && |more| + |strings| < WORDS && after == more + strings
    requires NamesFixable(after, Flatten(n)) && RawView(n, after) == v && Ordered(n)
    ensures ItemsMean(items + [ChildItem(n)], after, props, children + [v])
    ensures FlattenItems(items + [ChildItem(n)]) == FlattenItems(items) + Flatten(n)
  {
    RawItemsGrow(items, more, strings);
    FlattenOne(ChildItem(n));
    FlattenConcat(items, [ChildItem(n)]);
    RawChild(n, after);
    RawConcat(items, [ChildItem(n)], after);
    NothingBetween(props, []);
    PropsFirstConcat(items, [ChildItem(n)]);
    ChildrenOrderedConcat(items, [ChildItem(n)]);
  }

  /** A node as it is written, with names by their distance from the table's end, means v. */
  ghost predicate Spells(n: Node, strings: seq<byte>, v: View) { SpellsOut(n, strings, v) == true }

  ghost predicate SpellsOut(n: Node, strings: seq<byte>, v: View) {
    Ordered(n) && NamesFixable(strings, Flatten(n)) && RawView(n, strings) == v
  }

  /** The begin and end tags around the items. */
  lemma NodeMade(n: Node, strings: seq<byte>, v: View)
    requires ItemsMean(n.items, strings, v.props, v.children) && n.name == v.name
    ensures Spells(n, strings, v)
  {
    NodeItemsFixable(n, strings);
    RawViewIs(n, strings);
  }

  // ---------------------------------------------------------------- a table that only grows

  /** The strings table grew at the front. */
  ghost predicate Grew(before: seq<byte>, after: seq<byte>) {
    GrewBy(before, after) == true
  }

  ghost predicate GrewBy(before: seq<byte>, after: seq<byte>) {
    |before| <= |after| < WORDS && after[|after| - |before|..] == before
  }

  lemma GrewWith(more: seq<byte>, before: seq<byte>, after: seq<byte>)
    requires after == more + before && |after| < WORDS
    ensures Grew(before, after)
  {
  }

  lemma GrowthOf(before: seq<byte>, after: seq<byte>) returns (more: seq<byte>)
    requires Grew(before, after)
    ensures after == more + before && |more| + |before| < WORDS
  {
    more := after[..|after| - |before|];
  }

  lemma GrewTwice(a: seq<byte>, b: seq<byte>, c: seq<byte>)
    requires Grew(a, b) && Grew(b, c)
    ensures Grew(a, c)
  {
    var x := GrowthOf(a, b);
    var y := GrowthOf(b, c);
    assert c == (y + x) + a;
  }

  lemma TableFits(w: Writer)
    requires w.Valid()
    ensures |w.strings| < WORDS
  {
  }

  // ---------------------------------------------------------------- writing

  /** The writer has written the items after the tokens base, and they mean the properties and subnodes. */
  ghost predicate Wrote(w: Writer, base: seq<Token>, items: seq<Item>, props: seq<Property>, children: seq<View>)
    reads w
  {
    w.Valid() && HasWritten(w.tokens, base, items) && ItemsMean(items, w.strings, props, children)
  }

  ghost predicate HasWritten(tokens: seq<Token>, base: seq<Token>, items: seq<Item>) {
    IsWritten(tokens, base, items) == true
  }

  ghost predicate IsWritten(tokens: seq<Token>, base: seq<Token>,
    items: seq<Item>) { tokens == base + FlattenItems(items) }

  lemma WrittenMore(tokens: seq<Token>, base: seq<Token>, items: seq<Item>, more: seq<Token>, items': seq<Item>)
    requires HasWritten(tokens, base, items) && FlattenItems(items') == FlattenItems(items) + more
    ensures HasWritten(tokens + more, base, items')
  {
    assert base + FlattenItems(items) + more == base + (FlattenItems(items) + more);
  }

  lemma WrittenNone(base: seq<Token>)
    ensures HasWritten(base, base, [])
  {
  }

  method WriteProp(w: Writer, p: Property, ghost base: seq<Token>, ghost items: seq<Item>, ghost props: seq<Property>)
    returns (err: int, ghost items': seq<Item>)
    requires Wrote(w, base, items, props, []) && NoChild(items) && NoNul(p.name) && |p.value| < LENGTHS
    modifies w`bytes, w`sizeStruct, w`sizeStrings, w`structure, w`strings, w`tokens
    ensures |w.bytes| == old(|w.bytes|) && w.Told(AddProp(old(w.Sizes()), p.name, p.value), err)
    ensures err != OVERRUN ==> Grew(old(w.strings), w.strings)
    ensures err == 0 ==> Wrote(w, base, items', props + [p], []) && NoChild(items')
    ensures Costs(old(w.Room()), w.Room(), PropCost(p), err)
  {
    ghost var item, more, strings, tokens := NopItem, [], w.strings, w.tokens;
    err, item, more := w.Property(p.name, p.value);
    items' := items;
    if err != OVERRUN {
      TableFits(w);
      GrewWith(more, strings, w.strings);
    }
    if err == 0 {
      NamedIs(w.strings, item.nameoff, p.name);
      PropAdded(items, more, strings, w.strings, props, item, p.name);
      items' := items + [item];
      WrittenMore(tokens, base, items, FlattenItem(item), items');
    }
  }

  lemma NextPropCost(props: seq<Property>, i: nat)
    requires i < |props|
    ensures PropsCost(props[..i + 1]) == PropsCost(props[..i]) + PropCost(props[i]) <= PropsCost(props)
  {
    assert props[..i + 1][..i] == props[..i];
    PropsCostGrows(props, i + 1);
  }

  lemma NextChildCost(children: seq<View>, i: nat)
    requires i < |children|
    ensures ChildrenCost(children[..i + 1]) == ChildrenCost(children[..i]) + Cost(children[i]) <= ChildrenCost(children)
  {
    assert children[..i + 1][..i] == children[..i];
    ChildrenCostGrows(children, i + 1);
  }

  method WriteProps(w: Writer, props: seq<Property>, ghost base: seq<Token>) returns (err: int, ghost items: seq<Item>)
    requires w.Valid() && w.tokens == base && PropsWritable(props)
    modifies w`bytes, w`sizeStruct, w`sizeStrings, w`structure, w`strings, w`tokens
    ensures |w.bytes| == old(|w.bytes|) && w.Told(AddProps(old(w.Sizes()), props), err)
    ensures err != OVERRUN ==> Grew(old(w.strings), w.strings)
    ensures err == 0 ==> Wrote(w, base, items, props, [])
    ensures Costs(old(w.Room()), w.Room(), PropsCost(props), err)
  {
    var i := 0;
    items := [];
    NothingMeans(w.strings);
    WrittenNone(base);
    TableFits(w);
    GrewWith([], w.strings, w.strings);
    while i < |props|
      invariant 0 <= i <= |props| && |w.bytes| == old(|w.bytes|) && Grew(old(w.strings), w.strings)
      invariant Wrote(w, base, items, props[..i], []) && NoChild(items)
      invariant w.Room() >= old(w.Room()) - PropsCost(props[..i])
      invariant AddProps(old(w.Sizes()), props[..i]) == Fits(w.Sizes())
    {
      ghost var strings := w.strings;
      NextPropCost(props, i);
      NextProps(old(w.Sizes()), props, i);
      err, items := WriteProp(w, props[i], base, items, props[..i]);
      if err != OVERRUN { GrewTwice(old(w.strings), strings, w.strings); }
      if err != 0 {
        PropsFail(old(w.Sizes()), props, i + 1);
        return;
      }
      CutAround(props, i);
      i := i + 1;
    }
    assert props[..i] == props;
    err := 0;
  }

  method WriteChildren(w: Writer, children: seq<View>, ghost base: seq<Token>, ghost before: seq<Item>,
                       ghost props: seq<Property>)
    returns (err: int, ghost items: seq<Item>)
    requires (forall i :: 0 <= i < |children| ==> Writable(children[i])) && Wrote(w, base, before, props, [])
    modifies w`bytes, w`sizeStruct, w`sizeStrings, w`structure, w`strings, w`tokens
    ensures |w.bytes| == old(|w.bytes|) && w.Told(AddChildren(old(w.Sizes()), children), err)
    ensures err != OVERRUN ==> Grew(old(w.strings), w.strings)
    ensures err == 0 ==> Wrote(w, base, items, props, children)
    ensures Costs(old(w.Room()), w.Room(), ChildrenCost(children), err)
    decreases children, 0
  {
    var i := 0;
    items := before;
    TableFits(w);
    GrewWith([], w.strings, w.strings);
    while i < |children|
      invariant 0 <= i <= |children| && |w.bytes| == old(|w.bytes|) && Grew(old(w.strings), w.strings)
      invariant Wrote(w, base, items, props, children[..i])
      invariant w.Room() >= old(w.Room()) - ChildrenCost(children[..i])
      invariant AddChildren(old(w.Sizes()), children[..i]) == Fits(w.Sizes())
    {
      ghost var strings := w.strings;
      NextChildCost(children, i);
      NextChildren(old(w.Sizes()), children, i);
      err, items := WriteChild(w, children[i], base, items, props, children[..i]);
      if err != OVERRUN { GrewTwice(old(w.strings), strings, w.strings); }
      if err != 0 {
        ChildrenFail(old(w.Sizes()), children, i + 1);
        return;
      }
      CutAround(children, i);
      i := i + 1;
    }
    assert children[..i] == children;
    err := 0;
  }

  method WriteChild(w: Writer, v: View, ghost base: seq<Token>, ghost items: seq<Item>, ghost props: seq<Property>,
                    ghost children: seq<View>)
    returns (err: int, ghost items': seq<Item>)
    requires Writable(v) && Wrote(w, base, items, props, children)
    modifies w`bytes, w`sizeStruct, w`sizeStrings, w`structure, w`strings, w`tokens
    ensures |w.bytes| == old(|w.bytes|) && w.Told(AddTree(old(w.Sizes()), v), err)
    ensures err != OVERRUN ==> Grew(old(w.strings), w.strings)
    ensures err == 0 ==> Wrote(w, base, items', props, children + [v])
    ensures Costs(old(w.Room()), w.Room(), Cost(v), err)
    decreases v, 2
  {
    ghost var strings, tokens := w.strings, w.tokens;
    ghost var n;
    err, n := WriteTree(w, v);
    items' := items;
    if err != 0 { return; }
    ghost var more := GrowthOf(strings, w.strings);
    ChildAdded(items, more, strings, w.strings, props, children, n, v);
    items' := items + [ChildItem(n)];
    WrittenMore(tokens, base, items, Flatten(n), items');
  }

  /** A tree goes through fdt_begin_node, fdt_property and fdt_end_node. */
  method WriteTree(w: Writer, v: View) returns (err: int, ghost n: Node)
    requires w.Valid() && Writable(v)
    modifies w`bytes, w`sizeStruct, w`sizeStrings, w`structure, w`strings, w`tokens
    ensures |w.bytes| == old(|w.bytes|) && w.Told(AddTree(old(w.Sizes()), v), err)
    ensures err != OVERRUN ==> Grew(old(w.strings), w.strings)
    ensures err == 0 ==> w.tokens == old(w.tokens) + Flatten(n) && Spells(n, w.strings, v)
    ensures Costs(old(w.Room()), w.Room(), Cost(v), err)
    decreases v, 1
  {
    n := Node(v.name, [], []);
    ItemsCostPositive(v);
    TableFits(w);
    GrewWith([], w.strings, w.strings);
    ghost var pad;
    err, pad := w.BeginNode(v.name);
    if err == 0 { err, n := WriteInside(w, v, pad, old(w.tokens)); }
  }

  /** A tree without its begin tag. */
  method WriteInside(w: Writer, v: View, ghost pad: seq<byte>, ghost before: seq<Token>)
    returns (err: int, ghost n: Node)
    requires w.Valid() && Writable(v) && w.tokens == before + [Begin(v.name, pad)]
    modifies w`bytes, w`sizeStruct, w`sizeStrings, w`structure, w`strings, w`tokens
    ensures |w.bytes| == old(|w.bytes|) && w.Told(AddInside(old(w.Sizes()), v), err)
    ensures err != OVERRUN ==> Grew(old(w.strings), w.strings)
    ensures err == 0 ==> w.tokens == before + Flatten(n) && Spells(n, w.strings, v)
    ensures Costs(old(w.Room()), w.Room(), PropsCost(v.props) + ChildrenCost(v.children) + 4, err)
    decreases v, 0, 1
  {
    ghost var base := w.tokens;
    ghost var items;
    err, items := WriteItems(w, v, base);
    n := Node(v.name, pad, items);
    if err == 0 { err := CloseNode(w, v, n, before, base); }
  }

  lemma ItemsCostPositive(v: View)
    ensures PropsCost(v.props) + ChildrenCost(v.children) >= 0
  {
    PropsCostGrows(v.props, 0);
    ChildrenCostPositive(v.children);
  }

  /** The properties and subnodes of a node. */
  method WriteItems(w: Writer, v: View, ghost base: seq<Token>) returns (err: int, ghost items: seq<Item>)
    requires w.Valid() && w.tokens == base && Writable(v)
    modifies w`bytes, w`sizeStruct, w`sizeStrings, w`structure, w`strings, w`tokens
    ensures |w.bytes| == old(|w.bytes|) && w.Told(AddItems(old(w.Sizes()), v), err)
    ensures err != OVERRUN ==> Grew(old(w.strings), w.strings)
    ensures err == 0 ==> Wrote(w, base, items, v.props, v.children)
    ensures Costs(old(w.Room()), w.Room(), PropsCost(v.props) + ChildrenCost(v.children), err)
    decreases v, 0, 0
  {
    ghost var strings := w.strings;
    PropsCostGrows(v.props, 0);
    ChildrenCostPositive(v.children);
    err, items := WriteProps(w, v.props, base);
    if err == 0 {
      ghost var middle := w.strings;
      err, items := WriteChildren(w, v.children, base, items, v.props);
      if err != OVERRUN { GrewTwice(strings, middle, w.strings); }
    }
  }

  /** The end tag of a node. */
  method CloseNode(w: Writer, ghost v: View, ghost n: Node, ghost before: seq<Token>, ghost base: seq<Token>)
    returns (err: int)
    requires Wrote(w, base, n.items, v.props, v.children) && n.name == v.name && base == before + [Begin(n.name, n.pad)]
    modifies w`bytes, w`sizeStruct, w`structure, w`tokens
    ensures |w.bytes| == old(|w.bytes|) && w.Told(Grab(old(w.Sizes()), 4), err)
    ensures err == 0 ==> w.tokens == before + Flatten(n) && Spells(n, w.strings, v)
    ensures Costs(old(w.Room()), w.Room(), 4, err)
  {
    NodeMade(n, w.strings, v);
    err := w.PutTag(EndNode);
    if err == 0 { NodeWritten(before, n.name, n.pad, n.items, base, w.tokens); }
  }

  lemma NodeWritten(before: seq<Token>, name: seq<byte>, pad: seq<byte>, items: seq<Item>, base: seq<Token>,
                    after: seq<Token>)
    requires base == before + [Begin(name, pad)] && after == base + FlattenItems(items) + [EndNode]
    ensures after == before + Flatten(Node(name, pad, items))
  {
    var f := FlattenItems(items);
    assert before + [Begin(name, pad)] + f + [EndNode] == before + ([Begin(name, pad)] + f + [EndNode]);
  }

  // ---------------------------------------------------------------- there and back

  /** The reserve map's entries are written, and the map is finished. */
  method WriteReserve(w: Writer, entries: seq<Entry>) returns (err: int)
    requires w.Mapping() && w.reserve == [] && EntriesOk(entries)
    modifies w`bytes, w`offStruct, w`head, w`reserve
    ensures |w.bytes| == old(|w.bytes|) && (err == 0 || err == ERR_NOSPACE)
    ensures err != 0 <==> |w.bytes| < HEADER + ENTRY * (|entries| + 1)
    ensures err == 0 ==>
      w.Valid() && w.tokens == [] && w.Sizes() == Ledger(|w.bytes|, HEADER + ENTRY * (|entries| + 1), [])
    ensures err == 0 ==> EntriesOk(entries + [Entry(0, 0)]) && Holds(w.head, HEADER, MapBytes(entries + [Entry(0, 0)]))
  {
    var i := 0;
    while i < |entries|
      invariant 0 <= i <= |entries| && w.Mapping() && w.reserve == entries[..i] && |w.bytes| == old(|w.bytes|)
    {
      err := w.AddReserve(entries[i]);
      if err != 0 { return; }
      i := i + 1;
    }
    assert entries[..i] == entries;
    err := w.FinishReserve();
  }

  /** What a blob says of a written reserve map. */
  ghost predicate Reserves(bytes: seq<byte>, entries: seq<Entry>) {
    && ReserveMap(bytes, HEADER, FirstEmpty(entries))
    && forall i :: 0 <= i < |entries| ==> ReservesAt(bytes, entries, i)
  }

  ghost predicate ReservesAt(bytes: seq<byte>, entries: seq<Entry>, i: int)
    requires 0 <= i < |entries|
  {
    Within(bytes, HEADER + ENTRY * i, ENTRY) && ReadEntry(bytes, HEADER, i) == entries[i]
  }

  lemma MapIsRead(bytes: seq<byte>, at: int, entries: seq<Entry>)
    requires 0 <= at <= |bytes| && EntriesOk(entries + [Entry(0, 0)])
    requires Holds(bytes[..at], HEADER, MapBytes(entries + [Entry(0, 0)]))
    ensures Reserves(bytes, entries)
  {
    var es, x := entries + [Entry(0, 0)], MapBytes(entries + [Entry(0, 0)]);
    HeldIs(bytes[..at], HEADER, x);
    assert bytes[HEADER..HEADER + |x|] == bytes[..at][HEADER..HEADER + |x|];
    IsHeld(bytes, HEADER, x);
    EndsAtLast(entries, Entry(0, 0));
    MapEnds(bytes, HEADER, es);
    forall i | 0 <= i < |entries| ensures ReservesAt(bytes, entries, i) {
      assert es[i] == entries[i];
      EntryRead(bytes, HEADER, es, i);
    }
  }

  /** What the calls for a reserve map and a tree answer on a buffer of some size. */
  ghost function Emission(size: int, entries: seq<Entry>, v: View): Outcome {
    var top := HEADER + ENTRY * (|entries| + 1);
    if size < top then Full
    else
      var o := AddTree(Ledger(size, top, []), v);
      if o.Fits? then Grab(o.ledger, 4) else o
  }

  /** fdt_create, the reserve map, a whole tree, fdt_finish: the finished blob means the tree and has the map. */
  method Emit(size: int, entries: seq<Entry>, v: View) returns (err: int, blob: Blob?)
    requires 0 <= size < 0x8000_0000 && EntriesOk(entries) && Writable(v)
    ensures err == Answer(Emission(size, entries, v))
    ensures err == 0 ==>
      blob != null && fresh(blob) && blob.Valid() && blob.meaning == v && Reserves(blob.bytes, entries)
    ensures size >= HEADER + ENTRY * (|entries| + 1) + Cost(v) + 4 ==> err == 0
  {
    blob := null;
    CostPositive(v);
    if size < HEADER_SIZE { return ERR_NOSPACE, null; }
    var w := new Writer(size);
    err := WriteReserve(w, entries);
    if err != 0 { return; }
    ghost var n;
    err, n := WriteTree(w, v);
    if err != 0 { return; }
    assert [] + Flatten(n) == Flatten(n);
    err, blob := w.Finish(n);
    if err == 0 { MapIsRead(blob.bytes, blob.offStruct, entries); }
  }

  // ---------------------------------------------------------------- names that are longer than the buffer

  /** The length of all property names of a tree with their NULs. */
  function NamesSize(v: View): nat
    decreases v, 1
  {
    PropNamesSize(v.props) + ChildNamesSize(v.children)
  }

  function PropNamesSize(props: seq<Property>): nat {
    if props == [] then 0 else PropNamesSize(props[..|props| - 1]) + |props[|props| - 1].name| + 1
  }

  function ChildNamesSize(children: seq<View>): nat
    decreases children, 0
  {
    if children == [] then 0 else ChildNamesSize(children[..|children| - 1]) + NamesSize(children[|children| - 1])
  }

  /** The answer of a call that adds at most so many bytes to the table of l, where they fit the buffer. */
  ghost predicate NamesHeld(l: Ledger, n: int, o: Outcome) {
    o != Overrun && (o.Fits? ==> o.ledger.size == l.size && |o.ledger.table| <= |l.table| + n)
  }

  lemma {:induction false} PropNamesFit(l: Ledger, props: seq<Property>)
    requires |l.table| + PropNamesSize(props) <= l.size
    ensures NamesHeld(l, PropNamesSize(props), AddProps(l, props))
  {
    if props != [] { PropNamesFit(l, props[..|props| - 1]); }
  }

  lemma {:induction false} TreeNamesFit(l: Ledger, v: View)
    requires |l.table| + NamesSize(v) <= l.size
    ensures NamesHeld(l, NamesSize(v), AddTree(l, v))
    decreases v, 1
  {
    var a := Grab(l, 4 + Align4(|v.name| + 1));
    if a.Fits? {
      PropNamesFit(a.ledger, v.props);
      var b := AddProps(a.ledger, v.props);
      if b.Fits? { ChildNamesFit(b.ledger, v.children); }
      assert NamesHeld(a.ledger, NamesSize(v), AddItems(a.ledger, v));
    }
  }

  lemma {:induction false} ChildNamesFit(l: Ledger, children: seq<View>)
    requires |l.table| + ChildNamesSize(children) <= l.size
    ensures NamesHeld(l, ChildNamesSize(children), AddChildren(l, children))
    decreases children, 0
  {
    if children != [] {
      var n := |children| - 1;
      ChildNamesFit(l, children[..n]);
      var o := AddChildren(l, children[..n]);
      if o.Fits? { TreeNamesFit(o.ledger, children[n]); }
    }
  }

  /** A buffer that could hold all the names is never run over. */
  lemma NoOverrun(size: int, entries: seq<Entry>, v: View)
    requires NamesSize(v) <= size
    ensures Emission(size, entries, v) != Overrun
  {
    var top := HEADER + ENTRY * (|entries| + 1);
    if size >= top { TreeNamesFit(Ledger(size, top, []), v); }
  }

  /** The node with one property: where the calls before it have room, the buffer is run over exactly when the name with
      its NUL is longer than the buffer. */
  lemma OneName(size: int, entries: seq<Entry>, name: seq<byte>, value: seq<byte>)
    requires HEADER + ENTRY * (|entries| + 1) + 8 <= size < 0x8000_0000 && |name| < 0x8000_0000
    ensures Emission(size, entries, View([], [Property(name, value)], [])) == Overrun <==> |name| + 1 > size
  {
    var v, top := View([], [Property(name, value)], []), HEADER + ENTRY * (|entries| + 1);
    var l := Ledger(size, top + 8, []);
    assert Grab(Ledger(size, top, []), 4 + Align4(|v.name| + 1)) == Fits(l);
    assert v.props[..0] == [] && AddProps(l, v.props[..0]) == Fits(l);
    assert AddProps(l, v.props) == AddProp(l, name, value);
    OverrunIs(l, name);
    NotInNothing(name);
    if |name| + 1 <= size {
      assert PropNamesSize(v.props) == |name| + 1;
      NoOverrun(size, entries, v);
    } else {
      assert AddItems(l, v) == Overrun && AddInside(l, v) == Overrun;
    }
  }

  lemma NotInNothing(name: seq<byte>)
    ensures !InTable([], name)
  {
  }

  /** A name of 200 bytes on a buffer of 128: 73 bytes go in front of it. */
  lemma LongName(name: seq<byte>)
    requires |name| == 200
    ensures Emission(128, [], View([], [Property(name, [])], [])) == Overrun
    ensures forall bytes, ahead :: |bytes| == 128 && RunOver([], name, ahead, bytes) ==> ahead == 73
  {
    OneName(128, [], name, []);
  }

  /** A blob is read node by node and property by property: what is read is what it means. */
  method ReadTree(blob: Blob) returns (v: View)
    requires blob.Valid()
    ensures v == blob.meaning
  {
    HoldingIs(blob.structure, blob.strings, blob.tree, blob.meaning);
    v := ReadNode(blob.Struct(), blob.Strings(), 0, blob.tree, []);
  }

  lemma HoldingIs(s: seq<byte>, strings: seq<byte>, root: Node, view: View)
    requires Holding(s, strings, root, view)
    ensures TreeOk(s, strings, root) && ViewOf(root, strings) == view && IsNodeAt(root, [], 0)
  {
    assert Opens(OfHolding);
    RootAt(root);
  }

  /** Written and read again: the tree given, and as many reserved ranges as come before the first empty one. */
  method EmitAndRead(size: int, entries: seq<Entry>, v: View) returns (err: int, read: View, count: int)
    requires 0 <= size < 0x8000_0000 && EntriesOk(entries) && Writable(v)
    ensures err == Answer(Emission(size, entries, v))
    ensures err == 0 ==> read == v && count == FirstEmpty(entries)
    ensures size >= HEADER + ENTRY * (|entries| + 1) + Cost(v) + 4 ==> err == 0
  {
    var blob;
    err, blob := Emit(size, entries, v);
    if err != 0 { return err, v, 0; }
    read := ReadTree(blob);
    count := NumReserve(blob.bytes, HEADER, FirstEmpty(entries));
  }
}
