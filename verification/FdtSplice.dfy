/**
 Replacing bytes of a structure block, seen as replacing tokens, items and nodes.
 */
module FdtSplice {
  import opened Seqs
  import opened FdtFormat
  import opened FdtBytes
  import opened FdtTree
  import opened FdtView
  import opened FdtScan
  import opened FdtRead

  lemma AllOkParts(a: seq<Token>, b: seq<Token>)
    ensures AllOk(a + b) <==> AllOk(a) && AllOk(b)
  {
    if AllOk(a + b) {
      forall i | 0 <= i < |a| ensures TokenOk(a[i]) { assert (a + b)[i] == a[i]; }
      forall i | 0 <= i < |b| ensures TokenOk(b[i]) { assert (a + b)[|a| + i] == b[i]; }
    }
  }

  /** Replacing the bytes of some tokens by the bytes of others replaces the tokens. */
  lemma TokenSplice(s: seq<byte>, a: seq<Token>, old': seq<Token>, c: seq<Token>, new': seq<Token>, from: int, to: int,
                    t: seq<byte>)
    requires AllOk(a) && AllOk(old') && AllOk(c) && AllOk(new') && AllOk(a + old' + c)
    requires Holds(s, 0, EncodeAll(a + old' + c))
    requires from == |EncodeAll(a)| && to == from + |EncodeAll(old')| && Exchanged(s, from, to, EncodeAll(new'), t)
    ensures AllOk(a + new' + c) && Holds(t, 0, EncodeAll(a + new' + c))
  {
    EncodeThree(a, old', c);
    EncodeThree(a, new', c);
    SplicedBytes(s, EncodeAll(a), EncodeAll(old'), EncodeAll(c), EncodeAll(new'), from, to, t);
  }

  lemma SplicedBytes(s: seq<byte>, x: seq<byte>, y: seq<byte>, z: seq<byte>, w: seq<byte>, from: int, to: int,
                     t: seq<byte>)
    requires Holds(s, 0, x + y + z) && from == |x| && to == from + |y| && Exchanged(s, from, to, w, t)
    ensures Holds(t, 0, x + w + z)
  {
    ByteSplice(s, x, y, z, w, t);
  }

  lemma ByteSplice(s: seq<byte>, x: seq<byte>, y: seq<byte>, z: seq<byte>, w: seq<byte>, t: seq<byte>)
    requires Holds(s, 0, x + y + z) && t == s[..|x|] + w + s[|x| + |y|..]
    ensures Holds(t, 0, x + w + z)
  {
    HoldsParts(s, 0, x + y, z);
    HoldsParts(s, 0, x, y);
    HeldIs(s, 0, x);
    HeldIs(s, |x| + |y|, z);
    assert t[..|x|] == x && t[|x|..|x| + |w|] == w;
    assert t[|x| + |w|..|x| + |w| + |z|] == s[|x| + |y|..|x| + |y| + |z|];
    IsHeld(t, 0, x);
    IsHeld(t, |x|, w);
    IsHeld(t, |x| + |w|, z);
    HoldsParts(t, 0, x, w);
    HoldsParts(t, 0, x + w, z);
  }

  lemma EncodeThree(a: seq<Token>, b: seq<Token>, c: seq<Token>)
    requires AllOk(a) && AllOk(b) && AllOk(c)
    ensures AllOk(a + b + c) && EncodeAll(a + b + c) == EncodeAll(a) + EncodeAll(b) + EncodeAll(c)
  {
    EncodeConcat(a, b);
    EncodeConcat(a + b, c);
  }

  // ---------------------------------------------------------------- items of a node

  /** The node with items k up to l replaced. */
  function WithItems(n: Node, k: int, l: int, mid: seq<Item>): Node
    requires 0 <= k <= l <= |n.items|
  {
    n.(items := n.items[..k] + mid + n.items[l..])
  }

  /** The tokens of the tree before and after the items k up to l of the node at a path. */
  function Upto(root: Node, p: seq<nat>, k: int): seq<Token>
    requires IsPath(root, p) && 0 <= k <= |NodeAt(root, p).items|
  {
    var n := NodeAt(root, p);
    Before(root, p) + [Begin(n.name, n.pad)] + FlattenItems(n.items[..k])
  }

  function From(root: Node, p: seq<nat>, l: int): seq<Token>
    requires IsPath(root, p) && 0 <= l <= |NodeAt(root, p).items|
  {
    FlattenItems(NodeAt(root, p).items[l..]) + [EndNode] + After(root, p)
  }

  lemma FlattenWithItems(root: Node, p: seq<nat>, k: int, l: int, mid: seq<Item>)
    requires IsPath(root, p) && 0 <= k <= l <= |NodeAt(root, p).items|
    ensures Flatten(Replace(root, p, WithItems(NodeAt(root, p), k, l, mid)))
            == Upto(root, p, k) + FlattenItems(mid) + From(root, p, l)
  {
    var n := NodeAt(root, p);
    FlattenReplace(root, p, WithItems(n, k, l, mid));
    FlattenMiddle(n.items[..k], mid, n.items[l..]);
    Reassociate(Before(root, p), [Begin(n.name, n.pad)], FlattenItems(n.items[..k]), FlattenItems(mid),
                FlattenItems(n.items[l..]), [EndNode], After(root, p));
  }

  lemma Reassociate(a: seq<Token>, b: seq<Token>, c: seq<Token>, d: seq<Token>, e: seq<Token>, f: seq<Token>,
                    g: seq<Token>)
    ensures a + (b + (c + d + e) + f) + g == (a + b + c) + d + (e + f + g)
  {
  }

  lemma FlattenItemsAt(root: Node, p: seq<nat>, k: int, l: int)
    requires IsPath(root, p) && 0 <= k <= l <= |NodeAt(root, p).items|
    ensures Flatten(root) == Upto(root, p, k) + FlattenItems(NodeAt(root, p).items[k..l]) + From(root, p, l)
  {
    var n := NodeAt(root, p);
    CutBetween(n.items, k, l);
    FlattenWithItems(root, p, k, l, n.items[k..l]);
    ReplaceSame(root, p);
  }

  /** Everything the tokens of a tree promise, for each part of it. */
  lemma TreePartsOk(root: Node, p: seq<nat>, k: int, l: int)
    requires IsPath(root, p) && 0 <= k <= l <= |NodeAt(root, p).items| && AllOk(Flatten(root))
    ensures AllOk(Upto(root, p, k)) && AllOk(FlattenItems(NodeAt(root, p).items[k..l])) && AllOk(From(root, p, l))
  {
    FlattenItemsAt(root, p, k, l);
    AllOkParts(Upto(root, p, k) + FlattenItems(NodeAt(root, p).items[k..l]), From(root, p, l));
    AllOkParts(Upto(root, p, k), FlattenItems(NodeAt(root, p).items[k..l]));
  }

  /** The offset of item k of the node at a path; for k equal to the number of items, of its end tag. */
  function ItemOffset(root: Node, p: seq<nat>, k: int): int
    requires IsPath(root, p) && 0 <= k <= |NodeAt(root, p).items| && AllOk(Upto(root, p, k))
  {
    |EncodeAll(Upto(root, p, k))|
  }

  /** The master lemma: the bytes of items exchanged for those of other items. */
  lemma ItemSplice(s: seq<byte>, root: Node, p: seq<nat>, k: int, l: int, mid: seq<Item>, from: int, to: int,
                   t: seq<byte>)
    requires Stands(s, 0, Flatten(root) + [End]) && IsPath(root, p) && 0 <= k <= l <= |NodeAt(root, p).items|
    requires AllOk(Upto(root, p, k)) && AllOk(FlattenItems(NodeAt(root, p).items[k..l])) && AllOk(FlattenItems(mid))
    requires from == ItemOffset(root, p, k) && to == from + |EncodeAll(FlattenItems(NodeAt(root, p).items[k..l]))|
    requires Exchanged(s, from, to, EncodeAll(FlattenItems(mid)), t)
    ensures Stands(t, 0, Flatten(Replace(root, p, WithItems(NodeAt(root, p), k, l, mid))) + [End])
  {
    FrontStands(s, Flatten(root), [End]);
    TreePartsOk(root, p, k, l);
    FlattenItemsAt(root, p, k, l);
    FlattenWithItems(root, p, k, l, mid);
    StandsSpliced(s, Upto(root, p, k), FlattenItems(NodeAt(root, p).items[k..l]), From(root, p, l), [End],
      FlattenItems(mid), from, to, t);
  }

  lemma StandsSpliced(s: seq<byte>, a: seq<Token>, old': seq<Token>, c: seq<Token>, d: seq<Token>, new': seq<Token>,
                      from: int, to: int, t: seq<byte>)
    requires AllOk(a) && AllOk(old') && AllOk(c) && AllOk(d) && AllOk(new') && Stands(s, 0, a + old' + c + d)
    requires from == |EncodeAll(a)| && to == from + |EncodeAll(old')| && Exchanged(s, from, to, EncodeAll(new'), t)
    ensures Stands(t, 0, a + new' + c + d)
  {
    AllOkParts(c, d);
    Assoc(a + old', c, d);
    Assoc(a + new', c, d);
    TokenSplice(s, a, old', c + d, new', from, to, t);
  }

  /** The first of two parts stands where both do. */
  lemma FrontStands(s: seq<byte>, a: seq<Token>, b: seq<Token>)
    requires Stands(s, 0, a + b)
    ensures Stands(s, 0, a)
  {
    AllOkParts(a, b);
    EncodeConcat(a, b);
    HoldsParts(s, 0, EncodeAll(a), EncodeAll(b));
  }

  /** The node at a path stands at its offset. */
  lemma NodeStands(s: seq<byte>, root: Node, p: seq<nat>)
    requires Stands(s, 0, Flatten(root)) && IsPath(root, p)
    ensures AllOk(Before(root, p)) && Stands(s, |EncodeAll(Before(root, p))|, Flatten(NodeAt(root, p)))
  {
    FlattenAt(root, p);
    PartStands(s, Before(root, p), Flatten(NodeAt(root, p)), After(root, p));
  }

  lemma PartStands(s: seq<byte>, a: seq<Token>, b: seq<Token>, c: seq<Token>)
    requires Stands(s, 0, a + b + c)
    ensures AllOk(a) && Stands(s, |EncodeAll(a)|, b)
  {
    AllOkParts(a + b, c);
    AllOkParts(a, b);
    EncodeThree(a, b, c);
    EncodeAllAligned(a);
    PartHeld(s, EncodeAll(a), EncodeAll(b), EncodeAll(c));
  }

  lemma PartHeld(s: seq<byte>, x: seq<byte>, y: seq<byte>, z: seq<byte>)
    requires Holds(s, 0, x + y + z)
    ensures Holds(s, |x|, y)
  {
    HoldsParts(s, 0, x + y, z);
    HoldsParts(s, 0, x, y);
  }
}
