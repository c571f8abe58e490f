/**
 Paths of nodes (fdt_ro.c): fdt_get_path writes a node's path, fdt_path_offset finds the node of a
 path, and the one undoes the other.
 */
module FdtPath {
  import opened Options
  import opened Seqs
  import opened FdtFormat
  import opened FdtTree
  import opened FdtView
  import opened FdtScan
  import opened FdtRead
  import opened FdtSplice
  import opened FdtLookup

  const SLASH: byte := 47

  // ---------------------------------------------------------------- finding the node of a path

  /** The first place from p on that is not a slash, and the first that is. */
  function SkipSlashes(path: seq<byte>, p: nat): (q: nat)
    requires p <= |path|
    ensures p <= q <= |path| && (q < |path| ==> path[q] != SLASH) && forall i :: p <= i < q ==> path[i] == SLASH
    decreases |path| - p
  {
    if p < |path| && path[p] == SLASH then SkipSlashes(path, p + 1) else p
  }

  function FindSlash(path: seq<byte>, p: nat): (q: nat)
    requires p <= |path|
    ensures p <= q <= |path| && (q < |path| ==> path[q] == SLASH) && forall i :: p <= i < q ==> path[i] != SLASH
    decreases |path| - p
  {
    if p < |path| && path[p] != SLASH then FindSlash(path, p + 1) else p
  }

  /** The names between slashes. */
  function Components(path: seq<byte>, p: nat): seq<seq<byte>>
    requires p <= |path|
    decreases |path| - p
  {
    var a := SkipSlashes(path, p);
    if a == |path| then [] else [path[a..FindSlash(path, a)]] + Components(path, FindSlash(path, a))
  }

  /** The node that names lead to: at each level the first subnode that matches. */
  function Resolve(root: Node, p: seq<nat>, names: seq<seq<byte>>): (q: Option<seq<nat>>)
    requires IsPath(root, p)
    ensures q.Some? ==> IsPath(root, q.value)
    decreases |names|
  {
    if names == [] then Some(p)
    else
      var k := FirstMatch(NodeAt(root, p).items, Named(names[0]));
      if k == |NodeAt(root, p).items| then None
      else
        SubPath(root, p, k);
        Resolve(root, p + [k], names[1..])
  }

  /** Names lead from the node at p to the node at q: at each level to the first subnode that is called so. */
  ghost predicate LeadsTo(root: Node, p: seq<nat>, names: seq<seq<byte>>, q: seq<nat>)
    requires IsPath(root, p)
    decreases |names|
  {
    if names == [] then q == p
    else exists k: nat :: IsFirstCalled(NodeAt(root, p).items, names[0], k)
                          && IsPath(root, p + [k]) && LeadsTo(root, p + [k], names[1..], q)
  }

  ghost predicate IsFirstCalled(items: seq<Item>, name: seq<byte>, k: nat) {
    && k < |items| && items[k].ChildItem? && Called(items[k].node.name, name)
    && forall j :: 0 <= j < k && items[j].ChildItem? ==> !Called(items[j].node.name, name)
  }

  lemma FirstCalled(items: seq<Item>, name: seq<byte>, k: nat)
    ensures IsFirstCalled(items, name, k) <==> k == FirstMatch(items, Named(name)) < |items|
  {
    forall j | 0 <= j < |items| && items[j].ChildItem?
      ensures IsMatch(items[j], Named(name)) <==> Called(items[j].node.name, name)
    {
      MatchIsCalled(items[j].node.name, name);
    }
  }

  lemma {:induction false} ResolveLeads(root: Node, p: seq<nat>, names: seq<seq<byte>>, q: seq<nat>)
    requires IsPath(root, p)
    ensures Resolve(root, p, names) == Some(q) <==> LeadsTo(root, p, names, q)
    decreases |names|
  {
    if names != [] {
      var items := NodeAt(root, p).items;
      var k := FirstMatch(items, Named(names[0]));
      FirstCalled(items, names[0], k);
      if k < |items| {
        SubPath(root, p, k);
        ResolveLeads(root, p + [k], names[1..], q);
      }
      forall i: nat | IsFirstCalled(items, names[0], i) ensures i == k { FirstCalled(items, names[0], i); }
    }
  }

  lemma PartNoNul(path: seq<byte>, a: int, b: int)
    requires NoNul(path) && 0 <= a <= b <= |path|
    ensures NoNul(path[a..b])
  {
  }

  /** fdt_path_offset, for a path that starts with a slash. */
  method PathOffset(s: seq<byte>, strings: seq<byte>, path: seq<byte>, ghost root: Node) returns (offset: int)
    requires TreeOk(s, strings, root) && |path| > 0 && path[0] == SLASH && NoNul(path)
    ensures var q := Resolve(root, [], Components(path, 0));
      if q.None? then offset == ERR_NOTFOUND else IsNodeAt(root, q.value, offset)
    ensures offset >= 0 ==> exists q :: LeadsTo(root, [], Components(path, 0), q) && IsNodeAt(root, q, offset)
    ensures offset < 0 ==> offset == ERR_NOTFOUND && forall q :: !LeadsTo(root, [], Components(path, 0), q)
  {
    offset := WalkPath(s, strings, path, root);
    ghost var names := Components(path, 0);
    ghost var r := Resolve(root, [], names);
    if r.Some? {
      ResolveLeads(root, [], names, r.value);
      NodeOffsets(root, r.value, offset);
    } else {
      forall q ensures !LeadsTo(root, [], names, q) { ResolveLeads(root, [], names, q); }
    }
  }

  lemma NodeOffsets(root: Node, q: seq<nat>, off: int)
    requires IsNodeAt(root, q, off)
    ensures off >= 0
  {
  }

  /** The loop of fdt_path_offset. */
  method WalkPath(s: seq<byte>, strings: seq<byte>, path: seq<byte>, ghost root: Node) returns (offset: int)
    requires TreeOk(s, strings, root) && |path| > 0 && path[0] == SLASH && NoNul(path)
    ensures var q := Resolve(root, [], Components(path, 0));
      if q.None? then offset == ERR_NOTFOUND else IsNodeAt(root, q.value, offset)
  {
    offset := 0;
    ghost var at: seq<nat> := [];
    RootAt(root);
    var p := 0;
    while p < |path|
      invariant 0 <= p <= |path| && IsPath(root, at) && IsNodeAt(root, at, offset)
      invariant Resolve(root, at, Components(path, p)) == Resolve(root, [], Components(path, 0))
      decreases |path| - p
    {
      var a := SkipSlashes(path, p);
      if a == |path| { return; }
      var q := FindSlash(path, a);
      PartNoNul(path, a, q);
      offset, at := Descend(s, strings, offset, path[a..q], Components(path, q), root, at);
      if offset < 0 { return; }
      p := q;
    }
  }

  /** One step down. */
  method Descend(s: seq<byte>, strings: seq<byte>, off: int, name: seq<byte>, ghost rest: seq<seq<byte>>,
                 ghost root: Node, ghost at: seq<nat>)
    returns (offset: int, ghost at': seq<nat>)
    requires TreeOk(s, strings, root) && IsPath(root, at) && IsNodeAt(root, at, off) && NoNul(name)
    ensures offset < 0 ==> offset == ERR_NOTFOUND && Resolve(root, at, [name] + rest) == None
    ensures offset >= 0 ==>
      IsPath(root, at') && IsNodeAt(root, at', offset) && Resolve(root, at, [name] + rest) == Resolve(root, at', rest)
  {
    FirstItemAt(s, strings, root, at, off);
    offset := LookupSubnode(s, strings, off, name, root, at);
    ghost var k := FirstMatch(NodeAt(root, at).items, Named(name));
    at' := at + [k];
    Tail(name, rest);
  }

  // ---------------------------------------------------------------- the names of the open nodes

  /** The names of the nodes that are open before token j. */
  function Stack(ts: seq<Token>, j: nat): seq<seq<byte>>
    requires j <= |ts|
  {
    if j == 0 then []
    else
      var s := Stack(ts, j - 1);
      match ts[j - 1]
      case Begin(name, _) => s + [name]
      case EndNode => if s == [] then [] else s[..|s| - 1]
      case _ => s
  }

  /** Without new nodes the stack only shrinks. */
  lemma {:induction false} StackShrinks(ts: seq<Token>, a: nat, b: nat)
    requires a <= b <= |ts| && NoBegin(ts, a, b) && |Stack(ts, a)| + Level(ts, b) - Level(ts, a) >= 0
    ensures Level(ts, b) <= Level(ts, a) && Stack(ts, b) == Stack(ts, a)[..|Stack(ts, a)| + Level(ts, b) - Level(ts, a)]
    decreases b
  {
    if a < b {
      StackShrinks(ts, a, b - 1);
    }
  }

  lemma {:induction false} StackItems(ts: seq<Token>, i: nat, items: seq<Item>)
    requires Spans(ts, i, FlattenItems(items))
    ensures Stack(ts, i + |FlattenItems(items)|) == Stack(ts, i)
    decreases items
  {
    if items != [] {
      SpanParts(ts, i, FlattenItem(items[0]), FlattenItems(items[1..]));
      StackItem(ts, i, items[0]);
      StackItems(ts, i + |FlattenItem(items[0])|, items[1..]);
    }
  }

  lemma {:induction false} StackItem(ts: seq<Token>, i: nat, item: Item)
    requires Spans(ts, i, FlattenItem(item))
    ensures Stack(ts, i + |FlattenItem(item)|) == Stack(ts, i)
    decreases item
  {
    ItemStarts(item);
    SpanAt(ts, i, FlattenItem(item), 0);
    if item.ChildItem? { StackNode(ts, i, item.node); }
  }

  lemma {:induction false} StackNode(ts: seq<Token>, i: nat, n: Node)
    requires Spans(ts, i, Flatten(n))
    ensures i + |Flatten(n)| <= |ts| && Stack(ts, i + |Flatten(n)|) == Stack(ts, i)
    decreases n
  {
    var inner := FlattenItems(n.items);
    SpanParts(ts, i, [Begin(n.name, n.pad)] + inner, [EndNode]);
    SpanParts(ts, i, [Begin(n.name, n.pad)], inner);
    SpanAt(ts, i, [Begin(n.name, n.pad)], 0);
    SpanAt(ts, i + 1 + |inner|, [EndNode], 0);
    StackItems(ts, i + 1, n.items);
    var s := Stack(ts, i);
    assert (s + [n.name])[..|s|] == s;
  }

  /** The names on the way to a node, its own included. */
  function NamesAlong(root: Node, p: seq<nat>): (names: seq<seq<byte>>)
    requires IsPath(root, p)
    ensures |names| == |p| + 1
    decreases |p|
  {
    if p == [] then [root.name] else [root.name] + NamesAlong(root.items[p[0]].node, p[1..])
  }

  /** At a node's begin tag the open nodes are those on the way to it. */
  lemma {:induction false} StackAlong(ts: seq<Token>, i: nat, n: Node, p: seq<nat>, end: nat)
    requires IsPath(n, p) && Spans(ts, i, Flatten(n)) && end == i + |Before(n, p)|
    ensures end < |ts| && ts[end].Begin? && Stack(ts, end + 1) == Stack(ts, i) + NamesAlong(n, p)
    decreases |p|
  {
    NodeOpens(ts, i, n);
    if p != [] {
      var k := p[0];
      var m := n.items[k].node;
      var at := i + 1 + |FlattenItems(n.items[..k])|;
      DownSpan(ts, i + 1, n.items, k, at);
      StackItems(ts, i + 1, n.items[..k]);
      StackAlong(ts, at, m, p[1..], end);
      OneNameMore(Stack(ts, i), n.name, NamesAlong(m, p[1..]));
    }
  }

  lemma OneNameMore(s: seq<seq<byte>>, name: seq<byte>, rest: seq<seq<byte>>)
    ensures s + [name] + rest == s + ([name] + rest)
  {
  }

  lemma NodeOpens(ts: seq<Token>, i: nat, n: Node)
    requires Spans(ts, i, Flatten(n))
    ensures i < |ts| && ts[i] == Begin(n.name, n.pad) && Spans(ts, i + 1, FlattenItems(n.items))
    ensures Stack(ts, i + 1) == Stack(ts, i) + [n.name]
  {
    var inner := FlattenItems(n.items);
    SpanParts(ts, i, [Begin(n.name, n.pad)] + inner, [EndNode]);
    SpanParts(ts, i, [Begin(n.name, n.pad)], inner);
    SpanAt(ts, i, [Begin(n.name, n.pad)], 0);
  }

  lemma DownSpan(ts: seq<Token>, i: nat, items: seq<Item>, k: nat, at: nat)
    requires k < |items| && items[k].ChildItem? && Spans(ts, i, FlattenItems(items))
    requires at == i + |FlattenItems(items[..k])|
    ensures Spans(ts, i, FlattenItems(items[..k])) && Spans(ts, at, Flatten(items[k].node))
  {
    var a, c := FlattenItems(items[..k]), FlattenItems(items[k + 1..]);
    CutAround(items, k);
    FlattenMiddle(items[..k], [items[k]], items[k + 1..]);
    FlattenOne(items[k]);
    SpanParts(ts, i, a + Flatten(items[k].node), c);
    SpanParts(ts, i, a, Flatten(items[k].node));
  }

  // ---------------------------------------------------------------- writing the path of a node

  /** Names with a slash behind each. */
  function Joined(names: seq<seq<byte>>): seq<byte> {
    if names == [] then [] else Joined(names[..|names| - 1]) + (names[|names| - 1] + [SLASH])
  }

  lemma JoinedLast(names: seq<seq<byte>>, name: seq<byte>)
    ensures Joined(names + [name]) == Joined(names) + (name + [SLASH])
  {
    assert (names + [name])[..|names|] == names;
  }

  lemma JoinedTake(names: seq<seq<byte>>, k: nat)
    requires k < |names|
    ensures Joined(names[..k + 1]) == Joined(names[..k]) + (names[k] + [SLASH])
  {
    CutAround(names, k);
    JoinedLast(names[..k], names[k]);
  }

  lemma {:induction false} JoinedGrows(names: seq<seq<byte>>, k: nat, l: nat)
    requires k <= l <= |names|
    ensures |Joined(names[..k])| <= |Joined(names[..l])|
    decreases l
  {
    if k < l {
      JoinedGrows(names, k, l - 1);
      JoinedTake(names, l - 1);
    }
  }

  /** The buffer holds as many of the names as fit. */
  ghost predicate Stored(buf: seq<byte>, names: seq<seq<byte>>, k: int, p: int) {
    StoredNames(buf, names, k, p) == true
  }

  ghost predicate StoredNames(buf: seq<byte>, names: seq<seq<byte>>, k: int, p: int) {
    && 0 <= k <= |names| && 0 <= p <= |buf| && buf[..p] == Joined(names[..k])
    && (k < |names| ==> |Joined(names[..k + 1])| > |buf|)
  }

  ghost predicate NoSlashes(names: seq<seq<byte>>) {
    forall i :: 0 <= i < |names| ==> SLASH !in names[i]
  }

  /** The path string: the last slash is dropped, except for the root. */
  function PathString(names: seq<seq<byte>>): seq<byte> {
    var j := Joined(names);
    if |j| > 1 then j[..|j| - 1] else j
  }

  /** Dropping the last name stored: back to the slash before it. */
  method DropName(buf: array<byte>, p0: int, ghost names: seq<seq<byte>>, ghost k: int) returns (p: int)
    requires 1 < k <= |names| && 0 <= p0 <= buf.Length && buf[..p0] == Joined(names[..k]) && NoSlashes(names)
    ensures 0 <= p <= p0 && buf[..p] == Joined(names[..k - 1])
  {
    ghost var rest, last := Joined(names[..k - 1]), names[k - 1];
    JoinedTake(names, k - 1);
    JoinedTake(names, k - 2);
    assert Joined(names[..k]) == rest + (last + [SLASH]);
    assert rest[|rest| - 1] == SLASH;
    p := p0 - 1;
    forall i | |rest| <= i < p ensures buf[i] != SLASH { assert buf[i] == buf[..p0][i] == last[i - |rest|]; }
    assert buf[..p0][|rest| - 1] == SLASH;
    while buf[p - 1] != SLASH
      invariant |rest| <= p < p0
      decreases p
    {
      p := p - 1;
    }
    assert p == |rest|;
    assert buf[..p] == buf[..p0][..p];
  }

  /** Popping down to the new node's depth. */
  method DropTo(buf: array<byte>, p0: int, k0: int, depth: int, ghost names: seq<seq<byte>>) returns (p: int, k: int)
    requires 0 <= k0 <= |names| && 0 <= p0 <= buf.Length && buf[..p0] == Joined(names[..k0])
    requires NoSlashes(names) && 1 <= depth
    ensures 0 <= p <= buf.Length && k == (if k0 > depth then depth else k0) && buf[..p] == Joined(names[..k])
  {
    p, k := p0, k0;
    while k > depth
      invariant 0 <= k <= k0 && (k0 > depth ==> k >= depth) && (k0 <= depth ==> k == k0)
      invariant 0 <= p <= buf.Length && buf[..p] == Joined(names[..k])
    {
      p := DropName(buf, p, names, k);
      k := k - 1;
    }
  }

  /** What the walk of fdt_get_path does at a node: the open nodes' names are stored as far as they fit. */
  method StoreName(buf: array<byte>, p0: int, k0: int, depth: int, name: seq<byte>, ghost before: seq<seq<byte>>)
    returns (p: int, k: int)
    requires Stored(buf[..], before, k0, p0) && NoSlashes(before) && 0 <= depth <= |before|
    requires (depth == 0 ==> before == [])
    modifies buf
    ensures Stored(buf[..], before[..depth] + [name], k, p)
  {
    p, k := p0, k0;
    ghost var after := before[..depth] + [name];
    assert buf[..][..p0] == buf[..p0];
    if depth > 0 { p, k := DropTo(buf, p0, k0, depth, before); }
    SamePrefix(before, depth, name, k);
    if k >= depth {
      JoinedLast(before[..depth], name);
      if p + |name| + 1 <= buf.Length {
        Copy(buf, p, name + [SLASH]);
        p := p + |name| + 1;
        k := k + 1;
        assert after[..k] == after;
      } else {
        assert after[..k + 1] == after;
      }
    } else {
      SamePrefix(before, depth, name, k + 1);
    }
    assert buf[..][..p] == buf[..p];
  }

  lemma SamePrefix(before: seq<seq<byte>>, depth: int, name: seq<byte>, k: int)
    requires 0 <= k <= depth <= |before|
    ensures (before[..depth] + [name])[..k] == before[..k]
  {
  }

  method Copy(buf: array<byte>, p: int, x: seq<byte>)
    requires 0 <= p && p + |x| <= buf.Length
    modifies buf
    ensures buf[..p + |x|] == old(buf[..p]) + x
  {
    var i := 0;
    while i < |x|
      invariant 0 <= i <= |x| && buf[..p] == old(buf[..p])
      invariant forall j :: 0 <= j < i ==> buf[p + j] == x[j]
    {
      buf[p + i] := x[i];
      i := i + 1;
    }
    assert forall j :: 0 <= j < |x| ==> buf[..p + |x|][p + j] == x[j];
  }

  // ---------------------------------------------------------------- the walk

  /** The walk of fdt_get_path is at token j of the tree, whose open nodes are as many as its depth says. */
  ghost predicate WalkAt(s: seq<byte>, ts: seq<Token>, pos: seq<int>, j: nat, off: int, depth: int, goal: nat) {
    AtNode(s, ts, pos, j, off, depth) && j <= goal <= |ts| && |Stack(ts, j + 1)| == depth + 1
      && Scan(ts, j + 1, depth) == |ts|
  }

  /** The goal of the walk: the node at the offset asked for, or the end if no node begins there. */
  ghost predicate Aimed(s: seq<byte>, ts: seq<Token>, pos: seq<int>, goal: nat, nodeoffset: int) {
    && Laid(s, ts, pos) && goal <= |ts|
    && if goal < |ts| then ts[goal].Begin? && pos[goal] == nodeoffset
      else nodeoffset < pos[|ts|] ==> CheckNode(s, nodeoffset) < 0
  }

  /** A step of the walk leads on towards the goal, or to the end of the tree. */
  ghost predicate Walked(s: seq<byte>, ts: seq<Token>, pos: seq<int>, j: nat, off: int, depth: int, goal: nat,
                         nodeoffset: int) {
    HasWalked(s, ts, pos, j, off, depth, goal, nodeoffset) == true
  }

  ghost predicate HasWalked(s: seq<byte>, ts: seq<Token>, pos: seq<int>, j: nat, off: int, depth: int, goal: nat,
                            nodeoffset: int) {
    && (depth >= 0 ==> WalkAt(s, ts, pos, j, off, depth, goal))
    && (depth < 0 ==> depth == -1 && |pos| == |ts| + 1 && off == pos[|ts|])
    && (goal < |ts| ==> depth >= 0 && off <= nodeoffset)
  }

  /** The next node's open nodes: those of this one up to its depth, and itself. */
  lemma NextStack(ts: seq<Token>, i: nat, depth: int, j: nat, depth': int, pat: Pattern)
    requires i < |ts| && |Stack(ts, i + 1)| == depth + 1 && Reaches(ts, i, depth, j, depth', pat)
    ensures Stack(ts, j + 1) == Stack(ts, i + 1)[..depth'] + [ts[j].name] && depth' <= depth + 1
  {
    StackShrinks(ts, i + 1, j);
  }

  /** The walk comes to every node before it ends. */
  lemma GoalAhead(ts: seq<Token>, i: nat, depth: int, goal: nat, pat: Pattern)
    requires i < goal <= |ts| && (goal < |ts| ==> ts[goal].Begin?)
    ensures goal < |ts| && Leaves(ts, i, depth, pat) ==> Scan(ts, i + 1, depth) != |ts|
    ensures forall j: nat, depth' :: Reaches(ts, i, depth, j, depth', pat) ==> j <= goal
  {
  }

  /** The offset of the END tag behind the tree. */
  ghost function TreeEnd(root: Node): int {
    if AllOk(Flatten(root)) then |EncodeAll(Flatten(root))| else 0
  }

  /** The token of the node at path p, or the end. */
  ghost function GoalOf(s: seq<byte>, root: Node, p: seq<nat>, nodeoffset: int): nat {
    if nodeoffset < TreeEnd(root) && CheckNode(s, nodeoffset) >= 0 && IsPath(root, p) then |Before(root, p)|
      else |Flatten(root)|
  }

  /** The offset asked for, if it lies in the tree and passes the reader's check, is that of the node at path p. */
  ghost predicate Asked(s: seq<byte>, root: Node, p: seq<nat>, nodeoffset: int) {
    nodeoffset < TreeEnd(root) ==> NodeArg(s, root, p, nodeoffset)
  }

  /** A node lies before the end of the tree. */
  lemma BeforeEnd(s: seq<byte>, strings: seq<byte>, root: Node, p: seq<nat>, off: int)
    requires TreeOk(s, strings, root) && IsNodeAt(root, p, off)
    ensures off < TreeEnd(root)
  {
    OpenTree(s, strings, root);
    var ts, goal := Flatten(root), |Before(root, p)|;
    GoalStack(root, p, goal);
    GoalOffset(root, p, goal);
    OffIsSize(ts);
    StandsIsLaid(s, 0, ts);
    PositionsGrow(s, ts, Positions(0, ts), goal, |ts|);
  }

  /** The start of the walk, and its goal. */
  lemma WalkSetup(s: seq<byte>, strings: seq<byte>, root: Node, p: seq<nat>, nodeoffset: int, goal: nat)
    requires TreeOk(s, strings, root) && Asked(s, root, p, nodeoffset) && goal == GoalOf(s, root, p, nodeoffset)
    ensures AllOk(Flatten(root)) && WalkAt(s, Flatten(root), Positions(0, Flatten(root)), 0, 0, 0, goal)
    ensures Aimed(s, Flatten(root), Positions(0, Flatten(root)), goal, nodeoffset)
    ensures Stack(Flatten(root), 1) == [root.name]
    ensures goal < |Flatten(root)| <==> nodeoffset < TreeEnd(root) && CheckNode(s, nodeoffset) >= 0
    ensures Positions(0, Flatten(root))[|Flatten(root)|] == TreeEnd(root)
    ensures goal < |Flatten(root)| ==>
      IsPath(root, p) && goal == |Before(root, p)| && Stack(Flatten(root), goal + 1) == NamesAlong(root, p)
  {
    RootAt(root);
    NodeIsLaid(s, strings, root, [], 0);
    RootScan(root);
    OffIsSize(Flatten(root));
    if nodeoffset < TreeEnd(root) && CheckNode(s, nodeoffset) >= 0 {
      GoalStack(root, p, goal);
      GoalOffset(root, p, goal);
    }
  }

  lemma RootScan(root: Node)
    ensures |Flatten(root)| > 0 && Flatten(root)[0] == Begin(root.name, root.pad)
    ensures Scan(Flatten(root), 1, 0) == |Flatten(root)| && Stack(Flatten(root), 1) == [root.name]
  {
    FlattenEnds(root);
    ScanNode(Flatten(root), 0, root, 0);
    assert [] + [root.name] == [root.name];
  }

  lemma GoalStack(root: Node, p: seq<nat>, goal: nat)
    requires IsPath(root, p) && goal == |Before(root, p)|
    ensures goal < |Flatten(root)| && Flatten(root)[goal].Begin?
    ensures Stack(Flatten(root), goal + 1) == NamesAlong(root, p)
  {
    FlattenEnds(root);
    StackAlong(Flatten(root), 0, root, p, goal);
    assert [] + NamesAlong(root, p) == NamesAlong(root, p);
  }

  lemma GoalOffset(root: Node, p: seq<nat>, goal: nat)
    requires IsPath(root, p) && AllOk(Flatten(root)) && AllOk(Before(root, p)) && goal == |Before(root, p)|
    ensures goal <= |Flatten(root)| && Off(Flatten(root), goal) == |EncodeAll(Before(root, p))|
  {
    FlattenAt(root, p);
    var ts := Flatten(root);
    assert ts[..goal] == Before(root, p);
    OffIsLength(ts, goal);
  }

  lemma {:induction false} PositionsGrow(s: seq<byte>, ts: seq<Token>, pos: seq<int>, i: nat, j: nat)
    requires Laid(s, ts, pos) && i <= j <= |ts|
    ensures pos[i] <= pos[j] && (i < j ==> pos[i] < pos[j])
    decreases j
  {
    if i < j {
      PositionsGrow(s, ts, pos, i, j - 1);
      assert LaidAt(s, ts[j - 1], pos[j - 1], pos[j]);
    }
  }

  /** No node name contains a slash. */
  ghost predicate NamesFree(root: Node) {
    forall i :: 0 <= i < |Flatten(root)| ==> FreeToken(Flatten(root)[i])
  }

  predicate FreeToken(t: Token) { t.Begin? ==> SLASH !in t.name }

  lemma {:induction false} StackFree(root: Node, ts: seq<Token>, j: nat)
    requires ts == Flatten(root) && NamesFree(root) && j <= |ts|
    ensures NoSlashes(Stack(ts, j))
  {
    if j > 0 {
      StackFree(root, ts, j - 1);
      assert FreeToken(ts[j - 1]);
    }
  }

  lemma JoinedNonempty(names: seq<seq<byte>>)
    requires names != []
    ensures |Joined(names)| >= 1 && |PathString(names)| >= 1
    ensures |PathString(names)| + 1 == (if |Joined(names)| > 1 then |Joined(names)| else 2)
  {
  }

  lemma StoredNothing(buf: seq<byte>)
    ensures Stored(buf, [], 0, 0)
  {
  }

  /** fdt_get_name at a node of the walk. */
  method NameAt(s: seq<byte>, offset: int, ghost ts: seq<Token>, ghost pos: seq<int>, ghost j: nat, ghost depth: int)
    returns (name: seq<byte>)
    requires AtNode(s, ts, pos, j, offset, depth)
    ensures name == ts[j].name
  {
    assert LaidAt(s, ts[j], pos[j], pos[j + 1]);
    var len := Strlen(s, offset + 4, ts[j].name);
    HeldIs(s, offset + 4, ts[j].name);
    name := s[offset + 4..offset + 4 + len];
  }

  /** On to the next node, which is not behind the goal. */
  method OneOn(s: seq<byte>, offset: int, depth: int, ghost ts: seq<Token>, ghost pos: seq<int>, ghost j: nat,
               ghost goal: nat, ghost nodeoffset: int)
    returns (offset': int, depth': int, ghost j': nat)
    requires WalkAt(s, ts, pos, j, offset, depth, goal) && Aimed(s, ts, pos, goal, nodeoffset) && offset != nodeoffset
    ensures Walked(s, ts, pos, j', offset', depth', goal, nodeoffset)
    ensures depth' >= 0 ==>
      j < j' && 1 <= depth' <= depth + 1 && Stack(ts, j' + 1) == Stack(ts, j + 1)[..depth'] + [ts[j'].name]
    ensures depth' >= 0 ==> NoBegin(ts, j + 1, j') && depth' - depth == Level(ts, j' + 1) - Level(ts, j + 1)
  {
    j' := NodeAfterNode(s, ts, pos, j, offset, depth, Any);
    offset', depth' := NextNode(s, offset, depth);
    GoalAhead(ts, j, depth, goal, Any);
    if depth' >= 0 {
      NextStack(ts, j, depth, j', depth', Any);
      PositionsGrow(s, ts, pos, j', goal);
    }
  }

  /** The end of fdt_get_path at its node. */
  method FinishPath(buf: array<byte>, p: int, k: int, depth: int, ghost names: seq<seq<byte>>) returns (err: int)
    requires Stored(buf[..], names, k, p) && |names| == depth + 1 && depth >= 0 && buf.Length >= 2
    modifies buf
    ensures PathStored(buf[..], names, err)
  {
    JoinedNonempty(names);
    if k < depth + 1 {
      JoinedGrows(names, k + 1, |names|);
      assert names[..|names|] == names;
      return ERR_NOSPACE;
    }
    assert names[..k] == names;
    var q := if p > 1 then p - 1 else p;
    ghost var was := buf[..p];
    assert was == buf[..][..p];
    buf[q] := 0;
    assert buf[..q] == was[..q];
    assert buf[..q + 1] == buf[..q] + [0];
    err := 0;
  }

  /** What fdt_get_path has stored before it is at token j: the names of the open nodes above it. */
  ghost predicate NamesStored(buf: seq<byte>, ts: seq<Token>, j: nat, depth: int, names: seq<seq<byte>>, k: int,
                              q: int) {
    AreStored(buf, ts, j, depth, names, k, q) == true
  }

  ghost predicate AreStored(buf: seq<byte>, ts: seq<Token>, j: nat, depth: int, names: seq<seq<byte>>, k: int, q: int) {
    && Stored(buf, names, k, q) && NoSlashes(names) && 0 <= depth <= |names| && (depth == 0 ==> names == [])
    && j < |ts| && ts[j].Begin? && Stack(ts, j + 1) == names[..depth] + [ts[j].name]
  }

  /** fdt_get_path: the path of the node, or no space exactly when the path and its NUL do not fit. For an offset at or
      behind the end of the tree it reads in front of its buffer. */
  method GetPath(s: seq<byte>, strings: seq<byte>, nodeoffset: int, buf: array<byte>, ghost root: Node,
                 ghost p: seq<nat>)
    returns (err: int, stray: bool)
    requires TreeOk(s, strings, root) && Asked(s, root, p, nodeoffset) && NamesFree(root)
    modifies buf
    ensures stray <==> buf.Length >= 2 && nodeoffset >= TreeEnd(root)
    ensures buf.Length < 2 ==> err == ERR_NOSPACE
    ensures buf.Length >= 2 && nodeoffset < TreeEnd(root) && CheckNode(s, nodeoffset) < 0 ==> err == ERR_BADOFFSET
    ensures nodeoffset < TreeEnd(root) && CheckNode(s, nodeoffset) >= 0 ==>
      PathStored(buf[..], NamesAlong(root, p), err)
  {
    ghost var ts, goal := Flatten(root), GoalOf(s, root, p, nodeoffset);
    WalkSetup(s, strings, root, p, nodeoffset, goal);
    if goal < |ts| { JoinedNonempty(NamesAlong(root, p)); }
    if buf.Length < 2 { return ERR_NOSPACE, false; }
    err, stray := StorePath(s, nodeoffset, buf, root, ts, Positions(0, ts), goal);
  }

  /** The loop of fdt_get_path. */
  method StorePath(s: seq<byte>, nodeoffset: int, buf: array<byte>, ghost root: Node, ghost ts: seq<Token>,
                   ghost pos: seq<int>, ghost goal: nat)
    returns (err: int, stray: bool)
    requires ts == Flatten(root) && NamesFree(root) && WalkAt(s, ts, pos, 0, 0, 0, goal)
    requires Aimed(s, ts, pos, goal, nodeoffset) && buf.Length >= 2
    requires Stack(ts, 1) == [root.name]
    modifies buf
    ensures stray <==> goal == |ts| && nodeoffset >= pos[|ts|]
    ensures goal == |ts| && !stray ==> err == ERR_BADOFFSET
    ensures goal < |ts| ==> PathStored(buf[..], Stack(ts, goal + 1), err)
  {
    var offset, depth, q, k := 0, 0, 0, 0;
    ghost var j: nat := 0;
    ghost var names: seq<seq<byte>> := [];
    StoredNothing(buf[..]);
    PositionsGrow(s, ts, pos, 0, goal);
    err, stray := ERR_BADOFFSET, false;
    while offset <= nodeoffset
      invariant Walked(s, ts, pos, j, offset, depth, goal, nodeoffset) && !stray && err == ERR_BADOFFSET
      invariant depth >= 0 ==> NamesStored(buf[..], ts, j, depth, names, k, q)
      invariant depth < 0 ==> Stored(buf[..], names, k, q) && NoSlashes(names)
      decreases depth >= 0, |ts| - j
    {
      if depth < 0 {
        stray := PopAll(buf, q, k, names);
        return;
      }
      q, k := StoreNext(s, offset, depth, buf, q, k, names, root, ts, pos, j);
      names := Stack(ts, j + 1);
      if offset == nodeoffset {
        ReachedGoal(s, ts, pos, j, offset, depth, goal, nodeoffset);
        err := FinishPath(buf, q, k, depth, names);
        return;
      }
      offset, depth, j := OneOn(s, offset, depth, ts, pos, j, goal, nodeoffset);
    }
    WalkInside(s, ts, pos, j, offset, depth, goal, nodeoffset);
  }

  /** The walk is in the tree or at its end. */
  lemma WalkInside(s: seq<byte>, ts: seq<Token>, pos: seq<int>, j: nat, off: int, depth: int, goal: nat,
                   nodeoffset: int)
    requires Walked(s, ts, pos, j, off, depth, goal, nodeoffset) && Laid(s, ts, pos) && pos[0] == 0
    ensures 0 <= off <= pos[|ts|] && (depth >= 0 ==> off < pos[|ts|])
  {
    PositionsGrow(s, ts, pos, 0, |ts|);
    if depth >= 0 {
      PositionsGrow(s, ts, pos, j, |ts|);
      AtNodeChecks(s, ts, pos, j, off, depth);
    }
  }

  /** The names are dropped down to depth -1, which is that behind the tree: for the last slash the search leaves the
      buffer. */
  method PopAll(buf: array<byte>, p0: int, k0: int, ghost names: seq<seq<byte>>) returns (stray: bool)
    requires Stored(buf[..], names, k0, p0) && NoSlashes(names)
    ensures stray
  {
    assert buf[..][..p0] == buf[..p0];
    var p, k := DropTo(buf, p0, k0, 1, names);
    RootName(names, k, buf[..p]);
    p := p - 1;
    while p >= 1 && buf[p - 1] != SLASH
      invariant p <= buf.Length && forall i :: 0 <= i < p ==> buf[i] != SLASH
    {
      p := p - 1;
    }
    stray := p < 1;
  }

  /** At most one name is stored, and no slash before its end. */
  lemma RootName(names: seq<seq<byte>>, k: int, x: seq<byte>)
    requires 0 <= k <= 1 && k <= |names| && NoSlashes(names) && x == Joined(names[..k])
    ensures forall i :: 0 <= i < |x| - 1 ==> x[i] != SLASH
  {
    if k == 1 { JoinedTake(names, 0); }
  }

  /** The buffer starts with the path and a NUL, or there is no space for them. */
  ghost predicate PathStored(buf: seq<byte>, names: seq<seq<byte>>, err: int) {
    var path := PathString(names);
    && (err == 0 || err == ERR_NOSPACE)
    && (err == 0 <==> |path| + 1 <= |buf|)
    && (err == 0 ==> buf[..|path| + 1] == path + [0])
  }

  /** The node at the offset asked for is the goal. */
  lemma ReachedGoal(s: seq<byte>, ts: seq<Token>, pos: seq<int>, j: nat, off: int, depth: int, goal: nat,
                    nodeoffset: int)
    requires WalkAt(s, ts, pos, j, off, depth, goal) && Aimed(s, ts, pos, goal, nodeoffset) && off == nodeoffset
    ensures j == goal < |ts|
  {
    AtNodeChecks(s, ts, pos, j, off, depth);
    PositionsGrow(s, ts, pos, j, goal);
  }

  /** One round of the loop of fdt_get_path. */
  method StoreNext(s: seq<byte>, offset: int, depth: int, buf: array<byte>, q0: int, k0: int,
                   ghost names: seq<seq<byte>>,
                   ghost root: Node, ghost ts: seq<Token>, ghost pos: seq<int>, ghost j: nat)
    returns (q: int, k: int)
    requires AtNode(s, ts, pos, j, offset, depth) && NamesStored(buf[..], ts, j, depth, names, k0, q0)
    requires ts == Flatten(root) && NamesFree(root)
    modifies buf
    ensures Stored(buf[..], Stack(ts, j + 1), k, q) && NoSlashes(Stack(ts, j + 1)) && |Stack(ts, j + 1)| == depth + 1
  {
    var name := NameAt(s, offset, ts, pos, j, depth);
    q, k := StoreName(buf, q0, k0, depth, name, names);
    StackFree(root, ts, j + 1);
  }

  // ---------------------------------------------------------------- there and back

  /** A slash and a name, for each name. */
  function Slashed(names: seq<seq<byte>>): seq<byte> {
    if names == [] then [] else [SLASH] + names[0] + Slashed(names[1..])
  }

  lemma {:induction false} SlashedLast(names: seq<seq<byte>>, name: seq<byte>)
    ensures Slashed(names + [name]) == Slashed(names) + ([SLASH] + name)
    decreases |names|
  {
    if names == [] {
      assert ([] + [name])[1..] == [];
    } else {
      SlashedLast(names[1..], name);
      assert (names + [name])[1..] == names[1..] + [name];
      assert (names + [name])[0] == names[0];
    }
  }

  lemma {:induction false} JoinedIsSlashed(names: seq<seq<byte>>)
    ensures Joined([[]] + names) == Slashed(names) + [SLASH]
    decreases |names|
  {
    var n := |names| - 1;
    if names == [] {
      JoinedLast([], []);
      assert [[]] + names == [] + [[]];
    } else {
      var front, last := names[..n], names[n];
      assert names == front + [last] && [[]] + names == ([[]] + front) + [last];
      calc {
        Joined([[]] + names);
        { JoinedLast([[]] + front, last); }
        Joined([[]] + front) + (last + [SLASH]);
        { JoinedIsSlashed(front); }
        (Slashed(front) + [SLASH]) + (last + [SLASH]);
        { MoveSlash(Slashed(front), last); }
        (Slashed(front) + ([SLASH] + last)) + [SLASH];
        { SlashedLast(front, last); }
        Slashed(names) + [SLASH];
      }
    }
  }

  lemma MoveSlash(a: seq<byte>, x: seq<byte>)
    ensures (a + [SLASH]) + (x + [SLASH]) == (a + ([SLASH] + x)) + [SLASH]
  {
  }

  ghost predicate ProperNames(names: seq<seq<byte>>) {
    forall i :: 0 <= i < |names| ==> names[i] != [] && SLASH !in names[i]
  }

  /** Splitting undoes joining. */
  lemma {:induction false} ComponentsOf(path: seq<byte>, p: nat, names: seq<seq<byte>>)
    requires ProperNames(names) && p <= |path| && path[p..] == Slashed(names)
    ensures Components(path, p) == names
    decreases |names|
  {
    if names != [] {
      var name, rest := names[0], Slashed(names[1..]);
      var q := p + 1 + |name|;
      HeadOf(path, p, name, rest);
      FirstComponent(path, p, name, q);
      ComponentsOf(path, q, names[1..]);
      FirstOf(names);
    }
  }

  lemma FirstOf(names: seq<seq<byte>>)
    requires names != []
    ensures names == [names[0]] + names[1..]
  {
  }

  lemma HeadOf(path: seq<byte>, p: nat, name: seq<byte>, rest: seq<byte>)
    requires p <= |path| && path[p..] == [SLASH] + name + rest
    ensures p + 1 + |name| <= |path| && path[p] == SLASH && path[p + 1 + |name|..] == rest
    ensures path[p + 1..p + 1 + |name|] == name
  {
    var tail := path[p..];
    assert tail[0] == SLASH && tail[1..1 + |name|] == name && tail[1 + |name|..] == rest;
    assert path[p] == tail[0];
  }

  lemma FirstComponent(path: seq<byte>, p: nat, name: seq<byte>, q: nat)
    requires name != [] && SLASH !in name && q == p + 1 + |name| <= |path| && path[p] == SLASH
    requires path[p + 1..q] == name && (q < |path| ==> path[q] == SLASH)
    ensures Components(path, p) == [name] + Components(path, q)
  {
    var a := p + 1;
    forall i | a <= i < q ensures path[i] != SLASH { assert path[i] == path[a..q][i - a]; }
    SkipIs(path, p);
    FindIs(path, a, q);
  }

  lemma SkipIs(path: seq<byte>, p: nat)
    requires p + 1 < |path| && path[p] == SLASH && path[p + 1] != SLASH
    ensures SkipSlashes(path, p) == p + 1
  {
  }

  lemma {:induction false} FindIs(path: seq<byte>, a: nat, b: nat)
    requires a <= b <= |path| && (b < |path| ==> path[b] == SLASH) && forall i :: a <= i < b ==> path[i] != SLASH
    ensures FindSlash(path, a) == b
    decreases b - a
  {
    if a < b { FindIs(path, a + 1, b); }
  }

  /** No earlier subnode takes the place of one on the way. */
  ghost predicate Unambiguous(root: Node, p: seq<nat>)
    requires IsPath(root, p)
    decreases |p|
  {
    p == []
      || (FirstMatch(root.items, Named(root.items[p[0]].node.name)) == p[0]
      && Unambiguous(root.items[p[0]].node, p[1..]))
  }

  /** The names on the way to a node lead to it. */
  lemma {:induction false} ResolveAlong(root: Node, at: seq<nat>, p: seq<nat>)
    requires IsPath(root, at) && IsPath(NodeAt(root, at), p) && Unambiguous(NodeAt(root, at), p)
    ensures Resolve(root, at, NamesAlong(NodeAt(root, at), p)[1..]) == Some(at + p)
    decreases |p|
  {
    var n := NodeAt(root, at);
    if p == [] {
      assert at + p == at;
    } else {
      var k, m := p[0], n.items[p[0]].node;
      SubPath(root, at, k);
      ResolveAlong(root, at + [k], p[1..]);
      assert NamesAlong(n, p)[1..] == NamesAlong(m, p[1..]);
      assert NamesAlong(m, p[1..]) == [m.name] + NamesAlong(m, p[1..])[1..];
      Tail(m.name, NamesAlong(m, p[1..])[1..]);
      Onto(at, p);
    }
  }

  lemma Onto(at: seq<nat>, p: seq<nat>)
    requires p != []
    ensures at + [p[0]] + p[1..] == at + p
  {
  }

  /** The path string of a node in a tree whose root has no name, and whose other names are proper. */
  lemma PathIsRead(root: Node, p: seq<nat>)
    requires IsPath(root, p) && root.name == [] && ProperNames(NamesAlong(root, p)[1..]) && Unambiguous(root, p)
    ensures var path := PathString(NamesAlong(root, p));
      && |path| > 0 && path[0] == SLASH && Resolve(root, [], Components(path, 0)) == Some(p)
      && path == if p == [] then [47] else Slashed(NamesAlong(root, p)[1..])
  {
    var names := NamesAlong(root, p)[1..];
    assert NamesAlong(root, p) == [[]] + names;
    JoinedIsSlashed(names);
    ResolveAlong(root, [], p);
    assert [] + p == p;
    if names == [] {
      assert PathString(NamesAlong(root, p)) == [SLASH];
      assert Components([SLASH], 0) == [];
    } else {
      assert PathString(NamesAlong(root, p)) == Slashed(names);
      assert Slashed(names)[0..] == Slashed(names);
      ComponentsOf(Slashed(names), 0, names);
    }
  }

  lemma {:induction false} AlongFree(root: Node, ts: seq<Token>, j: nat)
    requires ts == Flatten(root) && AllOk(ts) && j <= |ts|
    ensures forall i :: 0 <= i < |Stack(ts, j)| ==> NoNul(Stack(ts, j)[i])
  {
    if j > 0 {
      AlongFree(root, ts, j - 1);
      assert TokenOk(ts[j - 1]);
    }
  }

  lemma {:induction false} JoinedNoNul(names: seq<seq<byte>>)
    requires forall i :: 0 <= i < |names| ==> NoNul(names[i])
    ensures NoNul(Joined(names)) && NoNul(PathString(names))
  {
    if names != [] {
      var n := |names| - 1;
      JoinedNoNul(names[..n]);
      var a, b := Joined(names[..n]), names[n] + [SLASH];
      assert forall i :: 0 <= i < |a + b| ==> (a + b)[i] == if i < |a| then a[i] else b[i - |a|];
    }
  }

  /** fdt_get_path and then fdt_path_offset: where there is space for the path, back to the same node. */
  method PathRoundTrip(s: seq<byte>, strings: seq<byte>, nodeoffset: int, buf: array<byte>, ghost root: Node,
                       ghost p: seq<nat>)
    returns (err: int, back: int)
    requires TreeOk(s, strings, root) && IsPath(root, p) && IsNodeAt(root, p, nodeoffset) && NamesFree(root)
    requires root.name == [] && ProperNames(NamesAlong(root, p)[1..]) && Unambiguous(root, p)
    modifies buf
    ensures err == 0 <==> |PathString(NamesAlong(root, p))| + 1 <= buf.Length
    ensures err == 0 ==> back == nodeoffset
  {
    ghost var path := PathString(NamesAlong(root, p));
    back := 0;
    NodePasses(s, strings, root, p, nodeoffset);
    BeforeEnd(s, strings, root, p, nodeoffset);
    var stray;
    err, stray := GetPath(s, strings, nodeoffset, buf, root, p);
    if err != 0 { return; }
    PathNoNul(s, strings, root, p, nodeoffset);
    PathIsRead(root, p);
    var read := ReadString(buf, path);
    back := PathOffset(s, strings, read, root);
  }

  /** The offset of a node passes the check. */
  lemma NodePasses(s: seq<byte>, strings: seq<byte>, root: Node, p: seq<nat>, off: int)
    requires TreeOk(s, strings, root) && IsNodeAt(root, p, off)
    ensures CheckNode(s, off) >= 0 && off >= 0
  {
    SearchTree(s, strings, root, p, off, Any);
    AtNodeChecks(s, Flatten(NodeAt(root, p)), Positions(off, Flatten(NodeAt(root, p))), 0, off, 0);
  }

  lemma PathNoNul(s: seq<byte>, strings: seq<byte>, root: Node, p: seq<nat>, nodeoffset: int)
    requires TreeOk(s, strings, root) && IsPath(root, p) && IsNodeAt(root, p, nodeoffset)
    ensures NoNul(PathString(NamesAlong(root, p)))
  {
    var goal := |Before(root, p)|;
    OpenTree(s, strings, root);
    GoalStack(root, p, goal);
    AlongFree(root, Flatten(root), goal + 1);
    JoinedNoNul(NamesAlong(root, p));
  }

  /** A C string in a buffer. */
  method ReadString(buf: array<byte>, ghost path: seq<byte>) returns (read: seq<byte>)
    requires NoNul(path) && |path| + 1 <= buf.Length && buf[..|path| + 1] == path + [0]
    ensures read == path
  {
    assert buf[..][0..|path|] == buf[..|path| + 1][..|path|];
    assert buf[..|path| + 1][|path|] == 0;
    IsHeld(buf[..], 0, path);
    var len := Strlen(buf[..], 0, path);
    read := buf[..len];
    assert read == buf[..|path| + 1][..|path|];
  }
}
