/**
 The way up (fdt_ro.c): the ancestors of a node, its depth and its parent, found by walking the
 blob from its start.
 */
module FdtAncestors {
  import opened Seqs
  import opened FdtFormat
  import opened FdtTree
  import opened FdtScan
  import opened FdtRead
  import opened FdtLookup
  import opened FdtPath

  // ---------------------------------------------------------------- the begin tags of the open nodes

  /** The begin tags, by number, of the nodes that are open before token j. */
  function Openers(ts: seq<Token>, j: nat): seq<int>
    requires j <= |ts|
  {
    if j == 0 then []
    else
      var s := Openers(ts, j - 1);
      match ts[j - 1]
      case Begin(_, _) => s + [j - 1]
      case EndNode => if s == [] then [] else s[..|s| - 1]
      case _ => s
  }

  /** They are as many as the names on the stack. */
  lemma {:induction false} OpenersAreNamed(ts: seq<Token>, j: nat)
    requires j <= |ts|
    ensures |Openers(ts, j)| == |Stack(ts, j)|
  {
    if j > 0 { OpenersAreNamed(ts, j - 1); }
  }

  /** Without new nodes they only get fewer. */
  lemma {:induction false} OpenersShrink(ts: seq<Token>, a: nat, b: nat)
    requires a <= b <= |ts| && NoBegin(ts, a, b) && |Openers(ts, a)| + Level(ts, b) - Level(ts, a) >= 0
    ensures Level(ts, b) <= Level(ts, a)
    ensures Openers(ts, b) == Openers(ts, a)[..|Openers(ts, a)| + Level(ts, b) - Level(ts, a)]
    decreases b
  {
    if a < b {
      OpenersShrink(ts, a, b - 1);
    }
  }

  lemma {:induction false} OpenersPastItems(ts: seq<Token>, i: nat, items: seq<Item>)
    requires Spans(ts, i, FlattenItems(items))
    ensures Openers(ts, i + |FlattenItems(items)|) == Openers(ts, i)
    decreases items
  {
    if items != [] {
      SpanParts(ts, i, FlattenItem(items[0]), FlattenItems(items[1..]));
      OpenersPastItem(ts, i, items[0]);
      OpenersPastItems(ts, i + |FlattenItem(items[0])|, items[1..]);
    }
  }

  lemma {:induction false} OpenersPastItem(ts: seq<Token>, i: nat, item: Item)
    requires Spans(ts, i, FlattenItem(item))
    ensures Openers(ts, i + |FlattenItem(item)|) == Openers(ts, i)
    decreases item
  {
    ItemStarts(item);
    SpanAt(ts, i, FlattenItem(item), 0);
    if item.ChildItem? { OpenersPastNode(ts, i, item.node); }
  }

  lemma {:induction false} OpenersPastNode(ts: seq<Token>, i: nat, n: Node)
    requires Spans(ts, i, Flatten(n))
    ensures i + |Flatten(n)| <= |ts| && Openers(ts, i + |Flatten(n)|) == Openers(ts, i)
    decreases n
  {
    var inner := FlattenItems(n.items);
    SpanParts(ts, i, [Begin(n.name, n.pad)] + inner, [EndNode]);
    NodeOpens(ts, i, n);
    SpanAt(ts, i + 1 + |inner|, [EndNode], 0);
    OpenersPastItems(ts, i + 1, n.items);
    var s := Openers(ts, i);
    assert (s + [i])[..|s|] == s;
  }

  /** The begin tags on the way to a node that starts at token i, its own included. */
  function TagsAlong(n: Node, p: seq<nat>, i: int): (tags: seq<int>)
    requires IsPath(n, p)
    ensures |tags| == |p| + 1
    decreases |p|
  {
    if p == [] then [i] else [i] + TagsAlong(n.items[p[0]].node, p[1..], i + 1 + |FlattenItems(n.items[..p[0]])|)
  }

  lemma {:induction false} OpenersAlong(ts: seq<Token>, i: nat, n: Node, p: seq<nat>, end: nat)
    requires IsPath(n, p) && Spans(ts, i, Flatten(n)) && end == i + |Before(n, p)|
    ensures end < |ts| && Openers(ts, end + 1) == Openers(ts, i) + TagsAlong(n, p, i)
    decreases |p|
  {
    NodeOpens(ts, i, n);
    NodeOpener(ts, i);
    if p != [] {
      var k := p[0];
      var m := n.items[k].node;
      var at := i + 1 + |FlattenItems(n.items[..k])|;
      DownSpan(ts, i + 1, n.items, k, at);
      OpenersPastItems(ts, i + 1, n.items[..k]);
      OpenersAlong(ts, at, m, p[1..], end);
      assert TagsAlong(n, p, i) == [i] + TagsAlong(m, p[1..], at);
      Assoc(Openers(ts, i), [i], TagsAlong(m, p[1..], at));
    }
  }

  lemma NodeOpener(ts: seq<Token>, i: nat)
    requires i < |ts| && ts[i].Begin?
    ensures Openers(ts, i + 1) == Openers(ts, i) + [i]
  {
  }

  /** The tag at depth d on the way is where the ancestor of that depth starts. */
  lemma {:induction false} TagAlong(n: Node, p: seq<nat>, i: int, d: nat)
    requires IsPath(n, p) && d <= |p|
    ensures IsPath(n, p[..d]) && TagsAlong(n, p, i)[d] == i + |Before(n, p[..d])|
    decreases d
  {
    if d > 0 {
      var m := n.items[p[0]].node;
      TagAlong(m, p[1..], i + 1 + |FlattenItems(n.items[..p[0]])|, d - 1);
      assert p[..d][0] == p[0] && p[..d][1..] == p[1..][..d - 1];
    }
  }

  // ---------------------------------------------------------------- walking to the node

  /** An ancestor that the walk has passed: at a deeper node j, the node of depth d that is open. */
  ghost predicate Kept(ts: seq<Token>, pos: seq<int>, j: nat, depth: int, d: int, found: int) {
    d < depth ==> IsOpener(ts, pos, j, d, found)
  }

  ghost predicate IsOpener(ts: seq<Token>, pos: seq<int>, j: nat, d: int, found: int) {
    && j < |ts| && 0 <= d < |Openers(ts, j + 1)|
    && 0 <= Openers(ts, j + 1)[d] < |pos| && found == pos[Openers(ts, j + 1)[d]]
  }

  lemma OwnOpener(ts: seq<Token>, pos: seq<int>, j: nat, depth: int)
    requires j < |ts| && |pos| == |ts| + 1 && ts[j].Begin? && |Stack(ts, j + 1)| == depth + 1
    ensures IsOpener(ts, pos, j, depth, pos[j])
  {
    OpenersAreNamed(ts, j + 1);
  }

  /** The next node's begin tags: those of this one up to its depth, and its own. */
  lemma NextOpeners(ts: seq<Token>, j: nat, depth: int, j': nat, depth': int)
    requires j < j' < |ts| && ts[j'].Begin? && |Openers(ts, j + 1)| == depth + 1 && 1 <= depth' <= depth + 1
    requires NoBegin(ts, j + 1, j') && depth' - depth == Level(ts, j' + 1) - Level(ts, j + 1)
    ensures Openers(ts, j' + 1) == Openers(ts, j + 1)[..depth'] + [j']
  {
    assert Level(ts, j' + 1) == Level(ts, j') + 1;
    OpenersShrink(ts, j + 1, j');
  }

  lemma StillOpen(ts: seq<Token>, pos: seq<int>, j: nat, depth: int, j': nat, depth': int, d: int, found: int)
    requires j < j' < |ts| && ts[j'].Begin? && |Stack(ts, j + 1)| == depth + 1 && 1 <= depth' <= depth + 1
    requires NoBegin(ts, j + 1, j') && depth' - depth == Level(ts, j' + 1) - Level(ts, j + 1)
    requires d <= depth ==> IsOpener(ts, pos, j, d, found)
    ensures Kept(ts, pos, j', depth', d, found)
  {
    if d < depth' {
      OpenersAreNamed(ts, j + 1);
      NextOpeners(ts, j, depth, j', depth');
    }
  }

  /** At the goal the kept node is the ancestor. */
  lemma AtGoal(root: Node, p: seq<nat>, goal: nat, d: int, found: int)
    requires IsPath(root, p) && goal == |Before(root, p)| && 0 <= d <= |p| && AllOk(Flatten(root))
    requires IsOpener(Flatten(root), Positions(0, Flatten(root)), goal, d, found)
    ensures IsNodeAt(root, p[..d], found)
  {
    OpenerOfGoal(root, p, goal, d);
    StartsThere(root, p[..d]);
  }

  lemma OpenerOfGoal(root: Node, p: seq<nat>, goal: nat, d: nat)
    requires IsPath(root, p) && goal == |Before(root, p)| && d <= |p|
    ensures goal < |Flatten(root)| && |Openers(Flatten(root), goal + 1)| == |p| + 1
    ensures IsPath(root, p[..d]) && Openers(Flatten(root), goal + 1)[d] == |Before(root, p[..d])|
  {
    FlattenEnds(root);
    OpenersAlong(Flatten(root), 0, root, p, goal);
    assert [] + TagsAlong(root, p, 0) == TagsAlong(root, p, 0);
    TagAlong(root, p, 0, d);
  }

  lemma StartsThere(root: Node, q: seq<nat>)
    requires IsPath(root, q) && AllOk(Flatten(root))
    ensures |Before(root, q)| <= |Flatten(root)| && IsNodeAt(root, q, Positions(0, Flatten(root))[|Before(root, q)|])
  {
    BeforeIsOk(root, q);
    GoalOffset(root, q, |Before(root, q)|);
  }

  lemma BeforeIsOk(root: Node, q: seq<nat>)
    requires IsPath(root, q) && AllOk(Flatten(root))
    ensures AllOk(Before(root, q)) && |Before(root, q)| <= |Flatten(root)|
  {
    FlattenAt(root, q);
    var b, ts := Before(root, q), Flatten(root);
    forall i | 0 <= i < |b| ensures TokenOk(b[i]) { assert b[i] == ts[i]; }
  }

  /** On to the next node, with the kept one. */
  method KeepOn(s: seq<byte>, offset: int, depth: int, ghost ts: seq<Token>, ghost pos: seq<int>, ghost j: nat,
                ghost goal: nat,
                ghost nodeoffset: int, ghost d: int, ghost found: int)
    returns (offset': int, depth': int, ghost j': nat)
    requires WalkAt(s, ts, pos, j, offset, depth, goal) && Aimed(s, ts, pos, goal, nodeoffset) && offset != nodeoffset
    requires d <= depth ==> IsOpener(ts, pos, j, d, found)
    ensures Walked(s, ts, pos, j', offset', depth', goal, nodeoffset)
    ensures (depth' >= 0 ==> j < j' && Kept(ts, pos, j', depth', d, found))
  {
    offset', depth', j' := OneOn(s, offset, depth, ts, pos, j, goal, nodeoffset);
    if depth' >= 0 { StillOpen(ts, pos, j, depth, j', depth', d, found); }
  }

  /** fdt_supernode_atdepth_offset: the ancestor of a node at a depth, if the node is as deep. The end of the tree is
      taken for a node of depth -1. */
  method SupernodeAtDepth(s: seq<byte>, strings: seq<byte>, nodeoffset: int, d: int, ghost root: Node,
                          ghost p: seq<nat>)
    returns (r: int, nodedepth: int)
    requires TreeOk(s, strings, root) && Asked(s, root, p, nodeoffset)
    ensures d < 0 ==> r == ERR_NOTFOUND
    ensures d >= 0 && nodeoffset < TreeEnd(root) && CheckNode(s, nodeoffset) < 0 ==> r == ERR_BADOFFSET
    ensures d >= 0 && nodeoffset == TreeEnd(root) ==> r == ERR_NOTFOUND && nodedepth == -1
    ensures d >= 0 && nodeoffset > TreeEnd(root) ==> r == ERR_BADSTRUCTURE
    ensures d >= 0 && nodeoffset < TreeEnd(root) && CheckNode(s, nodeoffset) >= 0 ==>
      nodedepth == |p| && if d > |p| then r == ERR_NOTFOUND else IsNodeAt(root, p[..d], r)
  {
    r, nodedepth := ERR_NOTFOUND, 0;
    if d < 0 { return; }
    ghost var ts, goal := Flatten(root), GoalOf(s, root, p, nodeoffset);
    WalkSetup(s, strings, root, p, nodeoffset, goal);
    EndStands(s, strings, root);
    r, nodedepth := WalkUp(s, nodeoffset, d, ts, Positions(0, ts), goal);
    if goal < |ts| && d <= nodedepth { AtGoal(root, p, goal, d, r); }
  }

  /** The loop of fdt_supernode_atdepth_offset. */
  method WalkUp(s: seq<byte>, nodeoffset: int, d: int, ghost ts: seq<Token>, ghost pos: seq<int>, ghost goal: nat)
    returns (r: int, nodedepth: int)
    requires WalkAt(s, ts, pos, 0, 0, 0, goal) && Aimed(s, ts, pos, goal, nodeoffset) && d >= 0
    requires CheckNode(s, pos[|ts|]) == ERR_BADOFFSET
    ensures goal < |ts| ==>
      nodedepth + 1 == |Stack(ts, goal + 1)|
      && if d > nodedepth then r == ERR_NOTFOUND else IsOpener(ts, pos, goal, d, r)
    ensures goal == |ts| && nodeoffset < pos[|ts|] ==> r == ERR_BADOFFSET
    ensures goal == |ts| && nodeoffset == pos[|ts|] ==> r == ERR_NOTFOUND && nodedepth == -1
    ensures goal == |ts| && nodeoffset > pos[|ts|] ==> r == ERR_BADSTRUCTURE
  {
    var offset, depth, found := 0, 0, ERR_NOTFOUND;
    ghost var j: nat := 0;
    nodedepth := 0;
    PositionsGrow(s, ts, pos, 0, goal);
    while 0 <= offset <= nodeoffset
      invariant offset >= 0 ==>
        Walked(s, ts, pos, j, offset, depth, goal, nodeoffset) && (depth >= 0 ==> Kept(ts, pos, j, depth, d, found))
      invariant offset < 0 ==> offset == ERR_BADOFFSET && goal == |ts| && nodeoffset > pos[|ts|]
      decreases offset >= 0, depth >= 0, |ts| - j
    {
      if depth == d {
        OwnOpener(ts, pos, j, depth);
        found := offset;
      }
      if offset == nodeoffset {
        if depth >= 0 { ReachedGoal(s, ts, pos, j, offset, depth, goal, nodeoffset); }
        nodedepth := depth;
        r := if d > depth then ERR_NOTFOUND else found;
        return;
      }
      if depth < 0 {
        offset, depth := NextNode(s, offset, depth);
      } else {
        offset, depth, j := KeepOn(s, offset, depth, ts, pos, j, goal, nodeoffset, d, found);
        WalkInside(s, ts, pos, j, offset, depth, goal, nodeoffset);
      }
    }
    if offset >= 0 { WalkInside(s, ts, pos, j, offset, depth, goal, nodeoffset); }
    r := if offset == ERR_BADOFFSET then ERR_BADSTRUCTURE else ERR_BADOFFSET;
  }

  /** fdt_node_depth */
  method NodeDepth(s: seq<byte>, strings: seq<byte>, nodeoffset: int, ghost root: Node, ghost p: seq<nat>)
    returns (depth: int)
    requires TreeOk(s, strings, root) && Asked(s, root, p, nodeoffset)
    ensures nodeoffset < TreeEnd(root) ==> depth == if CheckNode(s, nodeoffset) < 0 then ERR_BADOFFSET else |p|
    ensures nodeoffset >= TreeEnd(root) ==>
      depth == if nodeoffset == TreeEnd(root) then ERR_NOTFOUND else ERR_BADSTRUCTURE
  {
    var err;
    err, depth := SupernodeAtDepth(s, strings, nodeoffset, 0, root, p);
    assert p[..0] == [];
    if err != 0 { depth := err; }
  }

  /** fdt_parent_offset: the parent, or none for the root. */
  method ParentOffset(s: seq<byte>, strings: seq<byte>, nodeoffset: int, ghost root: Node, ghost p: seq<nat>)
    returns (r: int)
    requires TreeOk(s, strings, root) && Asked(s, root, p, nodeoffset)
    ensures nodeoffset < TreeEnd(root) && CheckNode(s, nodeoffset) < 0 ==> r == ERR_BADOFFSET
    ensures nodeoffset < TreeEnd(root) && CheckNode(s, nodeoffset) >= 0 ==>
      if p == [] then r == ERR_NOTFOUND else IsNodeAt(root, p[..|p| - 1], r)
    ensures nodeoffset >= TreeEnd(root) ==> r == if nodeoffset == TreeEnd(root) then ERR_NOTFOUND else ERR_BADSTRUCTURE
  {
    var depth := NodeDepth(s, strings, nodeoffset, root, p);
    if depth < 0 { return depth; }
    var nodedepth;
    r, nodedepth := SupernodeAtDepth(s, strings, nodeoffset, depth - 1, root, p);
  }

  /** fdt_first_subnode and then fdt_parent_offset: down and up again. */
  method DownAndUp(s: seq<byte>, strings: seq<byte>, off: int, ghost root: Node, ghost p: seq<nat>)
    returns (sub: int, back: int)
    requires TreeOk(s, strings, root) && IsNodeAt(root, p, off) && NodeArg(s, root, p, off) && CheckNode(s, off) >= 0
    ensures IsPath(root, p) && IsNextChild(root, p, 0, sub)
    ensures sub >= 0 ==> back == off
  {
    back := ERR_NOTFOUND;
    sub := FirstSubnode(s, strings, off, root, p);
    if sub < 0 { return; }
    ghost var q := p + [NextChild(NodeAt(root, p).items, 0)];
    NodePasses(s, strings, root, q, sub);
    BeforeEnd(s, strings, root, q, sub);
    back := ParentOffset(s, strings, sub, root, q);
    assert q[..|q| - 1] == p;
  }

  /** fdt_next_subnode stays below the same parent. */
  method AsideAndUp(s: seq<byte>, strings: seq<byte>, sub: int, ghost root: Node, ghost p: seq<nat>, ghost k: nat,
                    ghost off: int)
    returns (next: int, back: int)
    requires TreeOk(s, strings, root) && IsNodeAt(root, p, off) && k < |NodeAt(root, p).items|
    requires NodeAt(root, p).items[k].ChildItem?
    requires IsNodeAt(root, p + [k], sub)
    ensures IsNextChild(root, p, k + 1, next)
    ensures next >= 0 ==> back == off
  {
    back := ERR_NOTFOUND;
    next := NextSubnode(s, strings, sub, root, p, k, off);
    if next < 0 { return; }
    ghost var q := p + [NextChild(NodeAt(root, p).items, k + 1)];
    NodePasses(s, strings, root, q, next);
    BeforeEnd(s, strings, root, q, next);
    back := ParentOffset(s, strings, next, root, q);
    assert q[..|q| - 1] == p;
  }
}
