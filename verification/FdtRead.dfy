/**
 The readers of fdt.c and fdt_ro.c on a structure block: each loops over offsets and depth, and is
 proved to find what the tokens, and so the tree, say.
 */
module FdtRead {
  import opened Options
  import opened FdtFormat
  import opened FdtTree
  import opened FdtView
  import opened FdtScan

  /** Tokens ts are spelled out in s from an offset on. */
  ghost predicate Stands(s: seq<byte>, base: int, ts: seq<Token>) {
    StandsAt(s, base, ts) == true
  }

  ghost predicate StandsAt(s: seq<byte>, base: int, ts: seq<Token>) {
    0 <= base && Aligned(base) && AllOk(ts) && Holds(s, base, EncodeAll(ts))
  }

  /** The tokens are read one after the other, token k at offset pos[k]. */
  ghost predicate Laid(s: seq<byte>, ts: seq<Token>, pos: seq<int>) {
    ReadInOrder(s, ts, pos) == true
  }

  ghost predicate ReadInOrder(s: seq<byte>, ts: seq<Token>, pos: seq<int>) {
    |pos| == |ts| + 1 && forall k :: 0 <= k < |ts| ==> LaidAt(s, ts[k], pos[k], pos[k + 1])
  }

  ghost predicate LaidAt(s: seq<byte>, t: Token, off: int, next: int) {
    ReadAt(s, t, off, next) == true
  }

  ghost predicate ReadAt(s: seq<byte>, t: Token, off: int, next: int) {
    && 0 <= off < next && off % 4 == 0 && TagAt(s, off) == Step(TagOf(t), next)
    && match t {
         case Begin(name, _) => Holds(s, off + 4, name) && off + 4 + |name| < |s| && s[off + 4 + |name|] == 0
           && NoNul(name)
         case Prop(nameoff, value, pad) =>
           && next == off + 12 + |value| + |pad| <= |s| && |value| + |pad| == Align4(|value|)
           && WordAt(s, off + 4) == |value| && WordAt(s, off + 8) == nameoff && Holds(s, off + 12, value)
         case _ => next == off + 4
       }
  }

  ghost function Positions(base: int, ts: seq<Token>): seq<int>
    requires AllOk(ts)
  {
    seq(|ts| + 1, k requires 0 <= k <= |ts| => base + Off(ts, k))
  }

  lemma StandsIsLaid(s: seq<byte>, base: int, ts: seq<Token>)
    requires Stands(s, base, ts)
    ensures Laid(s, ts, Positions(base, ts))
  {
    var pos := Positions(base, ts);
    forall k | 0 <= k < |ts| ensures LaidAt(s, ts[k], pos[k], pos[k + 1]) {
      LaidHere(s, base, ts, pos, k);
    }
  }

  lemma LaidHere(s: seq<byte>, base: int, ts: seq<Token>, pos: seq<int>, k: nat)
    requires Stands(s, base, ts) && pos == Positions(base, ts) && k < |ts|
    ensures LaidAt(s, ts[k], pos[k], pos[k + 1])
  {
    TokenIsLaid(s, base, ts, k, pos[k], pos[k + 1]);
  }

  lemma TokenIsLaid(s: seq<byte>, base: int, ts: seq<Token>, k: nat, off: int, next: int)
    requires Stands(s, base, ts) && k < |ts| && off == base + Off(ts, k) && next == base + Off(ts, k + 1)
    ensures LaidAt(s, ts[k], off, next)
  {
    TokenHeld(s, base, ts, k, off);
    OffAligned(ts, k);
    AlignedSum(base, Off(ts, k), off);
    HeldIsLaid(s, off, ts[k], next);
  }

  lemma HeldIsLaid(s: seq<byte>, off: int, t: Token, next: int)
    requires 0 <= off && Aligned(off) && TokenOk(t) && Holds(s, off, Encode(t)) && next == off + |Encode(t)|
    ensures LaidAt(s, t, off, next)
  {
    TagAtToken(s, off, t);
    match t
    case Begin(name, pad) => TagAtBegin(s, off, name, pad);
    case Prop(nameoff, value, pad) => TagAtProp(s, off, nameoff, value, pad);
    case _ =>
  }

  /** _fdt_check_node_offset */
  function CheckNode(s: seq<byte>, off: int): int {
    if off < 0 || off % 4 != 0 || TagAt(s, off).tag != BEGIN_NODE then ERR_BADOFFSET else TagAt(s, off).next
  }

  method CheckNodeOffset(s: seq<byte>, off: int) returns (r: int)
    ensures r == CheckNode(s, off)
  {
    if off < 0 || off % 4 != 0 { return ERR_BADOFFSET; }
    var tag, next := NextTag(s, off);
    r := if tag != BEGIN_NODE then ERR_BADOFFSET else next;
  }

  /** No node begins from token i up to j. */
  ghost predicate NoBegin(ts: seq<Token>, i: nat, j: int) { forall k :: i <= k < j && k < |ts| ==> !ts[k].Begin? }

  /** The walk is at token i, a node's begin tag, and goes on to an end tag that closes depth zero. */
  ghost predicate AtNode(s: seq<byte>, ts: seq<Token>, pos: seq<int>, i: nat, off: int, depth: int) {
    OnNode(s, ts, pos, i, off, depth) == true
  }

  ghost predicate OnNode(s: seq<byte>, ts: seq<Token>, pos: seq<int>, i: nat, off: int, depth: int) {
    Laid(s, ts, pos) && i < |ts| && ts[i].Begin? && off == pos[i] && depth >= 0 && Scan(ts, i + 1, depth) != -1
  }

  /** The walk of fdt_next_node that left the begin tag i at depth0 is before token j, and has passed no node. */
  ghost predicate Walking(ts: seq<Token>, i: nat, depth0: int, j: nat, depth: int, pat: Pattern) {
    OnTheWay(ts, i, depth0, j, depth, pat) == true
  }

  ghost predicate OnTheWay(ts: seq<Token>, i: nat, depth0: int, j: nat, depth: int, pat: Pattern) {
    && 0 <= depth <= depth0 && i < j <= |ts| && NoBegin(ts, i + 1, j)
      && depth - depth0 == Level(ts, j) - Level(ts, i + 1)
    && Scan(ts, j, depth) == Scan(ts, i + 1, depth0) && Search(ts, j, depth, pat) == Search(ts, i + 1, depth0, pat)
  }

  /** The walk ends at the next node. */
  ghost predicate Reaches(ts: seq<Token>, i: nat, depth0: int, j: nat, depth: int, pat: Pattern) {
    && 0 <= depth0 && 1 <= depth <= depth0 + 1 && i < j < |ts| && ts[j].Begin? && NoBegin(ts, i + 1, j)
    && depth - depth0 == Level(ts, j + 1) - Level(ts, i + 1)
    && Scan(ts, j + 1, depth) == Scan(ts, i + 1, depth0)
      && Search(ts, j, depth - 1, pat) == Search(ts, i + 1, depth0, pat)
  }

  /** The walk ends behind the end tag that closes depth zero. */
  ghost predicate Leaves(ts: seq<Token>, i: nat, depth0: int, pat: Pattern) {
    0 <= depth0 && 0 <= Scan(ts, i + 1, depth0) <= |ts| && NoBegin(ts, i + 1, Scan(ts, i + 1, depth0))
      && Search(ts, i + 1, depth0, pat) == -1
  }

  lemma WalkStart(ts: seq<Token>, i: nat, depth: int, pat: Pattern)
    requires i < |ts| && 0 <= depth
    ensures Walking(ts, i, depth, i + 1, depth, pat)
  {
  }

  lemma WalkOn(ts: seq<Token>, i: nat, depth0: int, j: nat, depth: int, pat: Pattern)
    requires Walking(ts, i, depth0, j, depth, pat) && j < |ts|
    requires (ts[j].Prop? || ts[j].Nop? || (ts[j].EndNode? && depth > 0))
    ensures Walking(ts, i, depth0, j + 1, if ts[j].EndNode? then depth - 1 else depth, pat)
  {
  }

  lemma WalkEnds(ts: seq<Token>, i: nat, depth0: int, j: nat, depth: int, pat: Pattern)
    requires Walking(ts, i, depth0, j, depth, pat) && j < |ts|
    ensures ts[j].Begin? ==> Reaches(ts, i, depth0, j, depth + 1, pat)
    ensures ts[j].EndNode? && depth == 0 ==> Leaves(ts, i, depth0, pat) && Scan(ts, i + 1, depth0) == j + 1
    ensures ts[j].End? ==> Scan(ts, i + 1, depth0) == -1
  {
  }

  lemma StillWalking(ts: seq<Token>, i: nat, depth0: int, j: nat, depth: int, pat: Pattern)
    requires Walking(ts, i, depth0, j, depth, pat) && Scan(ts, i + 1, depth0) != -1
    ensures j < |ts|
  {
  }

  /** Where a walk stops, and at what depth, or that it never does. */
  datatype Stop = Stop(offset: int, depth: int) | Endless

  /** Over tags from an offset on: to the next begin tag, or past the end tag that takes the depth below zero, or to the
      END tag, which is an error. At a property that makes no progress the walk stays for ever. */
  function Onward(s: seq<byte>, cur: int, depth: int): (r: Stop)
    requires 0 <= cur
    ensures r.Stop? ==> (r.offset >= 0 ==> cur <= r.offset) && (r.offset < 0 ==> r.depth <= depth)
    ensures r.Stop? && r.offset >= 0 && r.depth >= 0 ==> TagAt(s, r.offset).tag == BEGIN_NODE
    decreases |s| - cur
  {
    var t := TagAt(s, cur);
    if t.tag == BEGIN_NODE then Stop(cur, depth + 1)
    else if t.tag == END_NODE then if depth - 1 < 0 then Stop(t.next, depth - 1) else Onward(s, t.next, depth - 1)
    else if t.tag == END then Stop(if t.next >= 0 then ERR_NOTFOUND else t.next, depth)
    else if t.next == cur then Endless
    else Onward(s, t.next, depth)
  }

  /** The node after an offset: from behind a node's begin tag, and for a negative offset from the start of the
      block. */
  function NodeAfter(s: seq<byte>, off: int, depth: int): (r: Stop)
    ensures r.Stop? && r.offset >= 0 ==> off < r.offset
  {
    if off < 0 then Onward(s, 0, depth)
    else if CheckNode(s, off) < 0 then Stop(ERR_BADOFFSET, depth)
    else Onward(s, CheckNode(s, off), depth)
  }

  /** fdt_next_node, on any bytes and for any offset from which the walk ends. */
  method NextNode(s: seq<byte>, off: int, depth0: int) returns (next: int, depth: int)
    requires NodeAfter(s, off, depth0) != Endless
    ensures Stop(next, depth) == NodeAfter(s, off, depth0)
  {
    depth := depth0;
    next := 0;
    if off >= 0 {
      next := CheckNodeOffset(s, off);
      if next < 0 { return; }
    }
    while true
      invariant 0 <= next && Onward(s, next, depth) == NodeAfter(s, off, depth0)
      decreases |s| - next
    {
      var cur := next;
      var tag;
      tag, next := NextTag(s, cur);
      if tag == BEGIN_NODE {
        return cur, depth + 1;
      } else if tag == END_NODE {
        depth := depth - 1;
        if depth < 0 { return; }
      } else if tag == END {
        return if next >= 0 then ERR_NOTFOUND else next, depth;
      }
    }
  }

  // ---------------------------------------------------------------- walks that do not end

  /** The loop of fdt_next_node after some turns: it is before an offset, or has ended. */
  datatype Loop = Going(cur: int, depth: int) | Ended(stop: Stop)

  function Turns(s: seq<byte>, cur: int, depth: int, n: nat): Loop
    requires 0 <= cur
    decreases n
  {
    if n == 0 then Going(cur, depth)
    else
      var t := TagAt(s, cur);
      if t.tag == BEGIN_NODE then Ended(Stop(cur, depth + 1))
      else if t.tag == END_NODE && depth - 1 < 0 then Ended(Stop(t.next, depth - 1))
      else if t.tag == END then Ended(Stop(if t.next >= 0 then ERR_NOTFOUND else t.next, depth))
      else Turns(s, t.next, if t.tag == END_NODE then depth - 1 else depth, n - 1)
  }

  /** A walk is endless exactly when the loop has not ended after any number of turns. */
  lemma EndlessIsForever(s: seq<byte>, cur: int, depth: int)
    requires 0 <= cur
    ensures Onward(s, cur, depth) == Endless <==> forall n: nat :: Turns(s, cur, depth, n).Going?
  {
    if Onward(s, cur, depth) == Endless {
      forall n: nat ensures Turns(s, cur, depth, n).Going? { GoesOn(s, cur, depth, n); }
    } else {
      var n := ComesToEnd(s, cur, depth);
      assert !Turns(s, cur, depth, n).Going?;
    }
  }

  lemma {:induction false} GoesOn(s: seq<byte>, cur: int, depth: int, n: nat)
    requires 0 <= cur && Onward(s, cur, depth) == Endless
    ensures Turns(s, cur, depth, n).Going?
    decreases n
  {
    var t := TagAt(s, cur);
    if n > 0 { GoesOn(s, t.next, if t.tag == END_NODE then depth - 1 else depth, n - 1); }
  }

  lemma {:induction false} ComesToEnd(s: seq<byte>, cur: int, depth: int) returns (n: nat)
    requires 0 <= cur && Onward(s, cur, depth) != Endless
    ensures Turns(s, cur, depth, n) == Ended(Onward(s, cur, depth))
    decreases |s| - cur
  {
    var t := TagAt(s, cur);
    n := 0;
    if t.tag == PROP || t.tag == NOP || (t.tag == END_NODE && depth - 1 >= 0) {
      n := ComesToEnd(s, t.next, if t.tag == END_NODE then depth - 1 else depth);
    }
    n := n + 1;
  }

  /** No property of the block has the length word that makes no progress. */
  ghost predicate NoneStalls(s: seq<byte>) { forall off :: 0 <= off < |s| ==> !Stalls(s, off) }

  /** Then every walk ends, from every offset. */
  lemma WalksEnd(s: seq<byte>, off: int, depth: int)
    requires NoneStalls(s)
    ensures NodeAfter(s, off, depth) != Endless && Sibling(s, off, depth) != None && PastProps(s, off) != None
  {
    if off < 0 { OnwardEnds(s, 0, depth); } else if CheckNode(s, off) >= 0 { OnwardEnds(s, CheckNode(s, off), depth); }
    SiblingEnds(s, off, depth);
    PastPropsEnds(s, off);
  }

  lemma {:induction false} OnwardEnds(s: seq<byte>, cur: int, depth: int)
    requires NoneStalls(s) && 0 <= cur
    ensures Onward(s, cur, depth) != Endless
    decreases |s| - cur
  {
    var t := TagAt(s, cur);
    if t.tag == PROP || t.tag == NOP || (t.tag == END_NODE && depth - 1 >= 0) {
      OnwardEnds(s, t.next, if t.tag == END_NODE then depth - 1 else depth);
    }
  }

  lemma {:induction false} SiblingEnds(s: seq<byte>, off: int, depth: int)
    requires NoneStalls(s)
    ensures Sibling(s, off, depth) != None
    decreases if off < 0 then |s| + 5 else |s| + 4 - off
  {
    if off < 0 { OnwardEnds(s, 0, depth); } else if CheckNode(s, off) >= 0 { OnwardEnds(s, CheckNode(s, off), depth); }
    var next := NodeAfter(s, off, depth);
    NodeAfterWithin(s, off, depth);
    if next.offset >= 0 && next.depth > 1 { SiblingEnds(s, next.offset, next.depth); }
  }

  lemma {:induction false} PastPropsEnds(s: seq<byte>, cur: int)
    requires NoneStalls(s)
    ensures PastProps(s, cur) != None
    decreases |s| - cur
  {
    var t := TagAt(s, cur);
    if t.tag == PROP || t.tag == NOP { PastPropsEnds(s, t.next); }
  }

  /** A node with one property whose length word is 0xFFFFFFF4: from its offset the walk never ends. */
  lemma StalledBlock()
    ensures var s := Word(BEGIN_NODE) + [0, 0, 0, 0] + Word(PROP) + Word(LENGTHS);
      Stalls(s, 8) && NodeAfter(s, 0, 0) == Endless && Sibling(s, 0, 1) == None && PastProps(s, 8) == None
  {
    var s := Word(BEGIN_NODE) + [0, 0, 0, 0] + Word(PROP) + Word(LENGTHS);
    assert s == [0, 0, 0, 1, 0, 0, 0, 0, 0, 0, 0, 3, 255, 255, 255, 244];
    assert NameEnd(s, 4) == 5;
    assert TagAt(s, 0) == Step(BEGIN_NODE, 8);
    assert TagAt(s, 8) == Step(PROP, 8);
  }

  /** What the walk from token j on finds, when it has left the begin tag i at depth0. */
  lemma {:induction false} OnwardTokens(s: seq<byte>, ts: seq<Token>, pos: seq<int>, i: nat, depth0: int, pat: Pattern,
                                        j: nat, depth: int, cur: int)
    returns (k: nat)
    requires Laid(s, ts, pos) && Walking(ts, i, depth0, j, depth, pat) && Scan(ts, i + 1, depth0) != -1
    requires 0 <= cur == pos[j]
    ensures WalkFinds(s, ts, pos, i, depth0, pat, Onward(s, cur, depth), k)
    decreases |ts| - j
  {
    StillWalking(ts, i, depth0, j, depth, pat);
    WalkEnds(ts, i, depth0, j, depth, pat);
    assert LaidAt(s, ts[j], pos[j], pos[j + 1]);
    k := j;
    if ts[j].Begin? || (ts[j].EndNode? && depth == 0) { return; }
    WalkOn(ts, i, depth0, j, depth, pat);
    k := OnwardTokens(s, ts, pos, i, depth0, pat, j + 1, if ts[j].EndNode? then depth - 1 else depth, pos[j + 1]);
  }

  /** The stop of a walk that left the begin tag i at depth0, in terms of the tokens: the next node, token k, or the
      end. */
  ghost predicate WalkFinds(s: seq<byte>, ts: seq<Token>, pos: seq<int>, i: nat, depth0: int, pat: Pattern, r: Stop,
                            k: nat) {
    && r.Stop? && r.offset >= 0
    && (r.depth >= 0 ==> AtNode(s, ts, pos, k, r.offset, r.depth) && Reaches(ts, i, depth0, k, r.depth, pat))
    && (r.depth < 0 ==>
      r.depth == -1 && Leaves(ts, i, depth0, pat) && |pos| == |ts| + 1 && r.offset == pos[Scan(ts, i + 1, depth0)])
  }

  /** The node after a node: the next node, or past the end tag that closes depth zero. */
  lemma NodeAfterNode(s: seq<byte>, ts: seq<Token>, pos: seq<int>, i: nat, off: int, depth: int, pat: Pattern)
    returns (k: nat)
    requires AtNode(s, ts, pos, i, off, depth)
    ensures WalkFinds(s, ts, pos, i, depth, pat, NodeAfter(s, off, depth), k)
  {
    AtNodeChecks(s, ts, pos, i, off, depth);
    WalkStart(ts, i, depth, pat);
    k := OnwardTokens(s, ts, pos, i, depth, pat, i + 1, depth, pos[i + 1]);
  }

  /** A begin tag passes the check. */
  lemma AtNodeChecks(s: seq<byte>, ts: seq<Token>, pos: seq<int>, i: nat, off: int, depth: int)
    requires AtNode(s, ts, pos, i, off, depth)
    ensures off >= 0 && CheckNode(s, off) == pos[i + 1] > 0
  {
    assert LaidAt(s, ts[i], pos[i], pos[i + 1]);
  }

  /** _fdt_node_end_offset */
  method NodeEnd(s: seq<byte>, off: int, ghost ts: seq<Token>, ghost pos: seq<int>, ghost i: nat) returns (r: int)
    requires CheckNode(s, off) >= 0 ==> AtNode(s, ts, pos, i, off, 0)
    ensures CheckNode(s, off) < 0 ==> r < 0
    ensures CheckNode(s, off) >= 0 ==> 0 <= Scan(ts, i + 1, 0) <= |ts| && r == pos[Scan(ts, i + 1, 0)]
  {
    var depth := 0;
    ghost var k := i;
    r := off;
    if CheckNode(s, off) >= 0 { AtNodeChecks(s, ts, pos, i, off, 0); }
    while r >= 0 && depth >= 0
      invariant CheckNode(s, off) < 0 ==> depth == 0 && (r == off || r < 0)
      invariant CheckNode(s, off) >= 0 ==> r >= 0
      invariant CheckNode(s, off) >= 0 && depth >= 0 ==>
        i <= k && AtNode(s, ts, pos, k, r, depth) && Scan(ts, k + 1, depth) == Scan(ts, i + 1, 0)
      invariant CheckNode(s, off) >= 0 && depth < 0 ==> 0 <= Scan(ts, i + 1, 0) <= |ts| && r == pos[Scan(ts, i + 1, 0)]
      decreases r >= 0, depth >= 0, |ts| - k
    {
      ghost var j := k;
      if CheckNode(s, off) >= 0 { j := NodeAfterNode(s, ts, pos, k, r, depth, Any); }
      r, depth := NextNode(s, r, depth);
      k := j;
    }
  }

  /** _fdt_nodename_eq */
  method NodenameEq(s: seq<byte>, off: int, name: seq<byte>, ghost t: Token, ghost next: int) returns (eq: bool)
    requires t.Begin? && LaidAt(s, t, off, next) && NoNul(name)
    ensures eq == NameMatches(t.name, name) == Called(t.name, name)
  {
    ghost var node := t.name;
    MatchIsCalled(node, name);
    var p := off + 4;
    HeldIs(s, p, node);
    assert forall i :: 0 <= i < |node| ==> s[p + i] == s[p..p + |node|][i] == node[i];
    if p + |name| + 1 > |s| { return false; }
    if s[p..p + |name|] != name {
      assert |node| >= |name| ==> s[p..p + |name|] == node[..|name|];
      return false;
    }
    assert forall q :: 0 <= q < |name| ==> s[p + q] == s[p..p + |name|][q] == name[q];
    assert s[p + |node|] == 0;
    assert |node| >= |name|;
    assert s[p..p + |name|] == node[..|name|];
    assert s[p + |name|] == if |name| < |node| then node[|name|] else 0;
    if s[p + |name|] == 0 {
      assert |name| == |node|;
      assert node[..|name|] == node;
      return true;
    } else if 64 !in name && s[p + |name|] == 64 {
      return true;
    } else {
      return false;
    }
  }

  /** fdt_subnode_offset_namelen */
  method SubnodeOffset(s: seq<byte>, off: int, name: seq<byte>, ghost ts: seq<Token>, ghost pos: seq<int>, ghost i: nat,
                       ghost after: nat) returns (r: int)
    requires CheckNode(s, off) >= 0 ==> AtNode(s, ts, pos, i, off, 0)
    requires NoNul(name) && after == i + 1
    ensures CheckNode(s, off) < 0 ==> r == if off < 0 then off else ERR_BADOFFSET
    ensures CheckNode(s, off) >= 0 ==>
      var found := Search(ts, after, 0, Named(name));
      if found == -1 then r == ERR_NOTFOUND else 0 <= found < |ts| && r == pos[found] >= 0
  {
    var depth := 0;
    ghost var k := i;
    r := off;
    while r >= 0 && depth >= 0
      invariant CheckNode(s, off) < 0 ==> depth == 0 && (r == off || (off >= 0 && r == ERR_BADOFFSET))
      invariant CheckNode(s, off) >= 0 ==> r >= 0
      invariant CheckNode(s, off) >= 0 && depth >= 0 ==>
        i <= k && AtNode(s, ts, pos, k, r, depth) && Scan(ts, k + 1, depth) == Scan(ts, i + 1, 0)
      invariant CheckNode(s, off) >= 0 && depth == 0 ==> k == i
      invariant CheckNode(s, off) >= 0 && depth > 0 ==>
        Search(ts, k, depth - 1, Named(name)) == Search(ts, after, 0, Named(name))
      invariant CheckNode(s, off) >= 0 && depth < 0 ==> Search(ts, after, 0, Named(name)) == -1
      decreases r >= 0, depth >= 0, |ts| - k
    {
      ghost var j := k;
      if CheckNode(s, off) >= 0 {
        AtNodeChecks(s, ts, pos, k, r, depth);
        j := NodeAfterNode(s, ts, pos, k, r, depth, Named(name));
      }
      if depth == 1 {
        assert LaidAt(s, ts[k], pos[k], pos[k + 1]);
        var eq := NodenameEq(s, r, name, ts[k], pos[k + 1]);
        if eq { return; }
      }
      r, depth := NextNode(s, r, depth);
      k := j;
    }
    if depth < 0 { r := ERR_NOTFOUND; }
  }

  /** fdt_first_subnode */
  method FirstSubnodeOffset(s: seq<byte>, off: int, ghost ts: seq<Token>, ghost pos: seq<int>, ghost i: nat,
                            ghost after: nat) returns (r: int)
    requires after == i + 1 && (CheckNode(s, off) >= 0 ==> AtNode(s, ts, pos, i, off, 0))
    requires (off < 0 ==> NodeAfter(s, off, 0) != Endless)
    ensures off < 0 ==> r == if NodeAfter(s, off, 0).depth == 1 then NodeAfter(s, off, 0).offset else ERR_NOTFOUND
    ensures off >= 0 && CheckNode(s, off) < 0 ==> r == ERR_NOTFOUND
    ensures CheckNode(s, off) >= 0 ==> FoundBy(ts, pos, Search(ts, after, 0, Any), r)
  {
    ghost var j := i;
    if CheckNode(s, off) >= 0 { j := NodeAfterNode(s, ts, pos, i, off, 0, Any); }
    var depth;
    r, depth := NextNode(s, off, 0);
    if r < 0 || depth != 1 { r := ERR_NOTFOUND; }
  }

  /** The result of a search: the offset of the token found, or that there is none. */
  ghost predicate FoundBy(ts: seq<Token>, pos: seq<int>, found: int, r: int) {
    if found == -1 then r == ERR_NOTFOUND else 0 <= found < |ts| && |pos| == |ts| + 1 && r == pos[found] >= 0
  }

  /** The walk of fdt_next_subnode: over deeper nodes to the next one at depth one; none if it does not end. */
  function Sibling(s: seq<byte>, off: int, depth: int): (r: Option<int>)
    decreases if off < 0 then |s| + 5 else |s| + 4 - off
  {
    var next := NodeAfter(s, off, depth);
    if next == Endless then None
    else if next.offset < 0 || next.depth < 1 then Some(ERR_NOTFOUND)
    else if next.depth > 1 then NodeAfterWithin(s, off, depth); Sibling(s, next.offset, next.depth)
    else Some(next.offset)
  }

  lemma NodeAfterWithin(s: seq<byte>, off: int, depth: int)
    ensures NodeAfter(s, off, depth) != Endless && NodeAfter(s, off, depth).depth >= 0 ==>
      NodeAfter(s, off, depth).offset <= |s|
  {
  }

  /** fdt_next_subnode, on any bytes and for any offset from which the walk ends. */
  method NextSubnodeOffset(s: seq<byte>, off: int) returns (r: int)
    requires Sibling(s, off, 1) != None
    ensures Some(r) == Sibling(s, off, 1)
    ensures off >= 0 && CheckNode(s, off) < 0 ==> r == ERR_NOTFOUND
  {
    var depth := 1;
    r := off;
    while true
      invariant Sibling(s, r, depth) == Sibling(s, off, 1)
      decreases if r < 0 then |s| + 5 else |s| + 4 - r
    {
      NodeAfterWithin(s, r, depth);
      r, depth := NextNode(s, r, depth);
      if r < 0 || depth < 1 { return ERR_NOTFOUND; }
      if depth <= 1 { return; }
    }
  }

  /** From a subnode of the node whose tokens are ts, the walk finds the next one. */
  lemma {:induction false} SiblingFound(s: seq<byte>, ts: seq<Token>, pos: seq<int>, i: nat, off: int, depth: int)
    requires AtNode(s, ts, pos, i, off, depth) && depth >= 1
    ensures Sibling(s, off, depth) != None
    ensures FoundBy(ts, pos, Search(ts, i + 1, depth, Any), Sibling(s, off, depth).value)
    decreases |ts| - i
  {
    var k := NodeAfterNode(s, ts, pos, i, off, depth, Any);
    var next := NodeAfter(s, off, depth);
    if next.depth > 1 { SiblingFound(s, ts, pos, k, next.offset, next.depth); }
  }

  /** Over no-ops to the next property; any other tag ends the search, and END is an error. */
  function PropFrom(s: seq<byte>, cur: int): (r: int)
    ensures r >= 0 ==> cur <= r && TagAt(s, r).tag == PROP
    decreases |s| - cur
  {
    var t := TagAt(s, cur);
    if t.tag == END then if t.next >= 0 then ERR_BADSTRUCTURE else t.next
    else if t.tag == PROP then cur
    else if t.tag == NOP then PropFrom(s, t.next)
    else ERR_NOTFOUND
  }

  /** _nextprop, on any bytes and for any offset. */
  method NextProp(s: seq<byte>, off: int) returns (r: int)
    ensures r == PropFrom(s, off)
  {
    var cur := off;
    while true
      invariant PropFrom(s, cur) == PropFrom(s, off)
      decreases |s| - cur
    {
      var tag, next := NextTag(s, cur);
      if tag == END { return if next >= 0 then ERR_BADSTRUCTURE else next; }
      if tag == PROP { return cur; }
      if tag != NOP { return ERR_NOTFOUND; }
      cur := next;
    }
  }

  /** fdt_first_property_offset */
  method FirstPropertyOffset(s: seq<byte>, off: int) returns (r: int)
    ensures r == if CheckNode(s, off) < 0 then ERR_BADOFFSET else PropFrom(s, CheckNode(s, off))
  {
    r := CheckNodeOffset(s, off);
    if r >= 0 { r := NextProp(s, r); }
  }

  /** fdt_next_property_offset */
  method NextPropertyOffset(s: seq<byte>, off: int) returns (r: int)
    ensures r == if off < 0 || off % 4 != 0 || TagAt(s, off).tag != PROP then ERR_BADOFFSET
      else PropFrom(s, TagAt(s, off).next)
  {
    if off < 0 || off % 4 != 0 { return ERR_BADOFFSET; }
    var tag, next := NextTag(s, off);
    if tag != PROP { return ERR_BADOFFSET; }
    r := NextProp(s, next);
  }

  /** Only no-ops from token i up to j. */
  ghost predicate OnlyNops(ts: seq<Token>, i: nat, j: int) { j <= |ts| && forall k :: i <= k < j ==> ts[k].Nop? }

  /** On tokens, the search stops at the first token that is no no-op. */
  lemma {:induction false} PropTokens(s: seq<byte>, ts: seq<Token>, pos: seq<int>, i: nat, cur: int) returns (j: nat)
    requires Laid(s, ts, pos) && i < |ts| && cur == pos[i] && ts[|ts| - 1] == EndNode
      && forall k :: i <= k < |ts| ==> ts[k] != End
    ensures i <= j < |ts| && OnlyNops(ts, i, j) && !ts[j].Nop?
      && PropFrom(s, cur) == if ts[j].Prop? then pos[j] else ERR_NOTFOUND
    ensures pos[j] >= 0
    decreases |ts| - i
  {
    assert LaidAt(s, ts[i], pos[i], pos[i + 1]);
    j := i;
    if ts[i].Nop? { j := PropTokens(s, ts, pos, i + 1, pos[i + 1]); }
  }

  lemma {:induction false} FindPropOver(ts: seq<Token>, i: nat, j: nat, strings: seq<byte>, name: seq<byte>)
    requires NamesOk(strings, ts) && i <= j < |ts| && OnlyNops(ts, i, j)
    ensures FindProp(ts, i, strings, name) == FindProp(ts, j, strings, name)
    decreases j - i
  {
    if i < j { FindPropOver(ts, i + 1, j, strings, name); }
  }

  /** The next property, and what is left to search by name. */
  lemma PropStep(s: seq<byte>, strings: seq<byte>, ts: seq<Token>, pos: seq<int>, i: nat, cur: int, name: seq<byte>)
    returns (j: nat)
    requires NodeLaid(s, strings, ts, pos) && i < |ts| && cur == pos[i]
    ensures i <= j < |ts|
    ensures PropFrom(s, cur) >= 0 ==>
      ts[j].Prop? && PropFrom(s, cur) == pos[j] && FindProp(ts, j, strings, name) == FindProp(ts, i, strings, name)
    ensures PropFrom(s, cur) < 0 ==> PropFrom(s, cur) == ERR_NOTFOUND && FindProp(ts, i, strings, name) == -1
  {
    j := PropTokens(s, ts, pos, i, cur);
    FindPropOver(ts, i, j, strings, name);
  }

  /** Over properties and no-ops from an offset on; none if the walk does not end. */
  function PastProps(s: seq<byte>, cur: int): (r: Option<int>)
    ensures r.Some? ==> r.value == cur || cur < r.value
    decreases |s| - cur
  {
    var t := TagAt(s, cur);
    if t.tag != PROP && t.tag != NOP then Some(cur)
    else if t.next == cur then None
    else PastProps(s, t.next)
  }

  /** The loop of fdt_add_subnode_namelen that skips the begin tag and the properties, on any bytes and for any offset
      from which it ends. */
  method SkipProperties(s: seq<byte>, off: int) returns (r: int)
    requires PastProps(s, TagAt(s, off).next) != None
    ensures Some(r) == PastProps(s, TagAt(s, off).next)
  {
    var tag, next := NextTag(s, off);
    while true
      invariant PastProps(s, next) == PastProps(s, TagAt(s, off).next)
      decreases |s| - next
    {
      r := next;
      tag, next := NextTag(s, r);
      if tag != PROP && tag != NOP { break; }
    }
  }

  /** On tokens, it ends before the first that is neither a property nor a no-op. */
  lemma {:induction false} PastPropTokens(s: seq<byte>, ts: seq<Token>, pos: seq<int>, j: nat)
    requires Laid(s, ts, pos) && SkipProps(ts, j) < |ts|
    ensures PastProps(s, pos[j]) == Some(pos[SkipProps(ts, j)])
    decreases |ts| - j
  {
    assert LaidAt(s, ts[j], pos[j], pos[j + 1]);
    if ts[j].Prop? || ts[j].Nop? { PastPropTokens(s, ts, pos, j + 1); }
  }

  /** The tokens of a node, laid out, with names in the strings block. */
  ghost predicate NodeLaid(s: seq<byte>, strings: seq<byte>, ts: seq<Token>, pos: seq<int>) {
    NodeRead(s, strings, ts, pos) == true
  }

  ghost predicate NodeRead(s: seq<byte>, strings: seq<byte>, ts: seq<Token>, pos: seq<int>) {
    && Laid(s, ts, pos) && |ts| > 1 && ts[0].Begin? && ts[|ts| - 1] == EndNode
    && NamesOk(strings, ts) && forall k :: 0 <= k < |ts| ==> ts[k] != End
  }

  /** The loop of fdt_get_property_namelen. */
  method FindProperty(s: seq<byte>, strings: seq<byte>, first: int, name: seq<byte>, ghost ts: seq<Token>,
                      ghost pos: seq<int>) returns (r: int)
    requires NodeLaid(s, strings, ts, pos) && first == pos[1]
    ensures var found := FindProp(ts, 1, strings, name);
      if found == -1 then r == ERR_NOTFOUND else 0 <= found < |ts| && ts[found].Prop? && r == pos[found] >= 0
  {
    ghost var j := PropStep(s, strings, ts, pos, 1, first, name);
    r := NextProp(s, first);
    while r >= 0
      invariant Looking(strings, ts, pos, name, j, r)
      decreases r >= 0, |ts| - j
    {
      LookHere(s, strings, ts, pos, name, j, r);
      var nameoff := WordAt(s, r + 8);
      if StringAt(strings, nameoff) == name { return; }
      j := LookOn(s, strings, ts, pos, name, j, r);
      r := NextPropertyOffset(s, r);
    }
  }

  /** The search by name stands at the property of token j, or has found nothing. */
  ghost predicate Looking(strings: seq<byte>, ts: seq<Token>, pos: seq<int>, name: seq<byte>, j: nat, r: int) {
    && NamesOk(strings, ts) && |pos| == |ts| + 1 && 1 <= j < |ts|
    && (r >= 0 ==> ts[j].Prop? && r == pos[j] && FindProp(ts, j, strings, name) == FindProp(ts, 1, strings, name))
    && (r < 0 ==> r == ERR_NOTFOUND && FindProp(ts, 1, strings, name) == -1)
  }

  lemma LookHere(s: seq<byte>, strings: seq<byte>, ts: seq<Token>, pos: seq<int>, name: seq<byte>, j: nat, r: int)
    requires NodeLaid(s, strings, ts, pos) && Looking(strings, ts, pos, name, j, r) && r >= 0
    ensures r + 12 <= |s| && r % 4 == 0 && TagAt(s, r) == Step(PROP, pos[j + 1])
    ensures WordAt(s, r + 8) == ts[j].nameoff && NameOk(strings, ts[j].nameoff)
    ensures StringAt(strings, ts[j].nameoff) == name ==> FindProp(ts, 1, strings, name) == j
  {
    assert LaidAt(s, ts[j], pos[j], pos[j + 1]);
    assert NamedOk(strings, ts[j]);
  }

  lemma LookOn(s: seq<byte>, strings: seq<byte>, ts: seq<Token>, pos: seq<int>, name: seq<byte>, j: nat, r: int)
    returns (k: nat)
    requires NodeLaid(s, strings, ts, pos) && Looking(strings, ts, pos, name, j, r) && r >= 0
    requires NameOk(strings, ts[j].nameoff) && StringAt(strings, ts[j].nameoff) != name
    ensures j < k && Looking(strings, ts, pos, name, k, PropFrom(s, pos[j + 1]))
  {
    k := PropStep(s, strings, ts, pos, j + 1, pos[j + 1], name);
  }

  /** fdt_get_property_namelen: the offset of the property, or an error. */
  method GetProperty(s: seq<byte>, strings: seq<byte>, off: int, name: seq<byte>, ghost ts: seq<Token>,
                     ghost pos: seq<int>) returns (r: int)
    requires CheckNode(s, off) >= 0 ==> NodeLaid(s, strings, ts, pos) && off == pos[0]
    ensures CheckNode(s, off) < 0 ==> r == ERR_BADOFFSET
    ensures CheckNode(s, off) >= 0 ==>
      var found := FindProp(ts, 1, strings, name);
      if found == -1 then r == ERR_NOTFOUND else 0 <= found < |ts| && ts[found].Prop? && r == pos[found] >= 0
  {
    r := CheckNodeOffset(s, off);
    if r < 0 { return; }
    assert LaidAt(s, ts[0], pos[0], pos[1]);
    r := FindProperty(s, strings, r, name, ts, pos);
  }
}
