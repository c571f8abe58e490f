/**
 The tree that a structure block spells out.  A Node keeps what the bytes hold (padding, no-ops and
 name offsets into the strings block); View is what it means to a reader.
 */
module FdtTree {
  import opened Seqs
  import opened FdtFormat

  datatype Node = Node(name: seq<byte>, pad: seq<byte>, items: seq<Item>)
  datatype Item = PropItem(nameoff: int, value: seq<byte>, pad: seq<byte>) | NopItem | ChildItem(node: Node)

  function Flatten(n: Node): seq<Token>
    decreases n
  {
    [Begin(n.name, n.pad)] + FlattenItems(n.items) + [EndNode]
  }

  function FlattenItems(items: seq<Item>): seq<Token>
    decreases items
  {
    if items == [] then [] else FlattenItem(items[0]) + FlattenItems(items[1..])
  }

  function FlattenItem(item: Item): seq<Token>
    decreases item
  {
    match item
    case PropItem(nameoff, value, pad) => [Prop(nameoff, value, pad)]
    case NopItem => [Nop]
    case ChildItem(node) => Flatten(node)
  }

  lemma {:induction false} FlattenConcat(a: seq<Item>, b: seq<Item>)
    ensures FlattenItems(a + b) == FlattenItems(a) + FlattenItems(b)
  {
    if a == [] {
      assert a + b == b;
    } else {
      assert (a + b)[1..] == a[1..] + b;
      FlattenConcat(a[1..], b);
    }
  }

  lemma FlattenOne(item: Item)
    ensures FlattenItems([item]) == FlattenItem(item)
  {
    assert [item][1..] == [];
  }

  lemma FlattenMiddle(a: seq<Item>, mid: seq<Item>, c: seq<Item>)
    ensures FlattenItems(a + mid + c) == FlattenItems(a) + FlattenItems(mid) + FlattenItems(c)
  {
    FlattenConcat(a, mid);
    FlattenConcat(a + mid, c);
  }

  // ---------------------------------------------------------------- nodes by path

  /** A path gives, level by level, the item that is the next node. */
  predicate IsPath(root: Node, p: seq<nat>)
    decreases |p|
  {
    p == [] || (p[0] < |root.items| && root.items[p[0]].ChildItem? && IsPath(root.items[p[0]].node, p[1..]))
  }

  function NodeAt(root: Node, p: seq<nat>): Node
    requires IsPath(root, p)
    decreases |p|
  {
    if p == [] then root else NodeAt(root.items[p[0]].node, p[1..])
  }

  function Replace(root: Node, p: seq<nat>, n: Node): Node
    requires IsPath(root, p)
    decreases |p|
  {
    if p == [] then n
    else root.(items := root.items[p[0] := ChildItem(Replace(root.items[p[0]].node, p[1..], n))])
  }

  /** The tokens before and after the node at a path. */
  function Before(root: Node, p: seq<nat>): seq<Token>
    requires IsPath(root, p)
    decreases |p|
  {
    if p == [] then []
    else [Begin(root.name, root.pad)] + FlattenItems(root.items[..p[0]]) + Before(root.items[p[0]].node, p[1..])
  }

  function After(root: Node, p: seq<nat>): seq<Token>
    requires IsPath(root, p)
    decreases |p|
  {
    if p == [] then []
    else After(root.items[p[0]].node, p[1..]) + FlattenItems(root.items[p[0] + 1..]) + [EndNode]
  }

  /** Replacing a node replaces its tokens and no others. */
  lemma {:induction false} FlattenReplace(root: Node, p: seq<nat>, n: Node)
    requires IsPath(root, p)
    ensures Flatten(Replace(root, p, n)) == Before(root, p) + Flatten(n) + After(root, p)
    decreases |p|
  {
    if p != [] {
      var k := p[0];
      var sub := root.items[k].node;
      FlattenReplace(sub, p[1..], n);
      var new' := Replace(sub, p[1..], n);
      FlattenChild(root, k, new');
      Regroup(root, k, Before(sub, p[1..]), Flatten(n), After(sub, p[1..]));
    }
  }

  lemma FlattenChild(root: Node, k: int, n: Node)
    requires 0 <= k < |root.items|
    ensures Flatten(root.(items := root.items[k := ChildItem(n)]))
      == [Begin(root.name, root.pad)] + (FlattenItems(root.items[..k]) + Flatten(n) + FlattenItems(root.items[k + 1..]))
        + [EndNode]
  {
    UpdateIsCut(root.items, k, ChildItem(n));
    FlattenMiddle(root.items[..k], [ChildItem(n)], root.items[k + 1..]);
    FlattenOne(ChildItem(n));
  }

  lemma Regroup(root: Node, k: int, b: seq<Token>, m: seq<Token>, a: seq<Token>)
    requires 0 <= k < |root.items|
    ensures [Begin(root.name, root.pad)] + (FlattenItems(root.items[..k]) + (b + m + a)
      + FlattenItems(root.items[k + 1..])) + [EndNode]
      == ([Begin(root.name, root.pad)] + FlattenItems(root.items[..k]) + b) + m
        + (a + FlattenItems(root.items[k + 1..]) + [EndNode])
  {
  }

  lemma {:induction false} ReplaceSame(root: Node, p: seq<nat>)
    requires IsPath(root, p)
    ensures Replace(root, p, NodeAt(root, p)) == root
    decreases |p|
  {
    if p != [] { ReplaceSame(root.items[p[0]].node, p[1..]); }
  }

  lemma FlattenAt(root: Node, p: seq<nat>)
    requires IsPath(root, p)
    ensures Flatten(root) == Before(root, p) + Flatten(NodeAt(root, p)) + After(root, p)
  {
    FlattenReplace(root, p, NodeAt(root, p));
    ReplaceSame(root, p);
  }
}
