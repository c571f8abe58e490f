/**
 The device table of drivers/dt.c: a hash table from tree nodes to devices, with singly linked
 buckets, and the iterator over all devices that walks the buckets in turn.
 A device is named by its number in order of creation; -1 is the null pointer.
 */
module DeviceTable {
  import opened Arith

  const BUCKETS := 128

  /** A product in 32 bits does not depend on what was cut off a factor before. */
  lemma ProductWraps(x: int, c: int, m: int)
    requires m > 0
    ensures (x % m) * c % m == x * c % m
  {
    var q, r := x / m, x % m;
    var t, u := r * c / m, r * c % m;
    assert x * c == (q * c + t) * m + u by {
      assert x == q * m + r && r * c == t * m + u;
      assert x * c == q * m * c + r * c;
      assert q * m * c == q * c * m;
    }
    DivUnique(x * c, m, q * c + t, u);
  }

  /** hash_32: a 32-bit multiplication, and the top seven bits of the product. */
  function Hash(node: int): (b: nat)
    ensures b < BUCKETS
    ensures 0x200_0000 * b <= node * 0x61C8_8647 % 0x1_0000_0000 < 0x200_0000 * (b + 1)
  {
    ProductWraps(node, 0x61C8_8647, 0x1_0000_0000);
    ((node % 0x1_0000_0000) * 0x61C8_8647 % 0x1_0000_0000) / 0x200_0000
  }

  ghost function Flat(lists: seq<seq<int>>): seq<int> {
    if lists == [] then [] else Flat(lists[..|lists| - 1]) + lists[|lists| - 1]
  }

  /** Each device is once in the bucket of its node, and nowhere else. */
  ghost predicate Placed(lists: seq<seq<int>>, nodes: seq<int>) {
    forall b :: 0 <= b < |lists| ==> PlacedIn(lists[b], nodes, b)
  }

  ghost predicate PlacedIn(list: seq<int>, nodes: seq<int>, b: int) {
    forall x :: multiset(list)[x] == Times(nodes, b, x)
  }

  /** How often device x is in bucket b. */
  ghost function Times(nodes: seq<int>, b: int, x: int): nat {
    if 0 <= x < |nodes| && Hash(nodes[x]) == b then 1 else 0
  }

  lemma {:induction false} FlatCounts(lists: seq<seq<int>>, nodes: seq<int>, x: int)
    requires Placed(lists, nodes)
    ensures multiset(Flat(lists))[x] == if 0 <= x < |nodes| && Hash(nodes[x]) < |lists| then 1 else 0
  {
    if lists != [] {
      var n := |lists| - 1;
      FlatCounts(lists[..n], nodes, x);
      assert PlacedIn(lists[n], nodes, n);
      assert multiset(lists[n])[x] == Times(nodes, n, x);
    }
  }

  /** What the buckets' pointers spell out. */
  ghost predicate Linked(first: int, next: seq<int>, list: seq<int>) {
    && first == (if list == [] then -1 else list[0])
    && forall k :: 0 <= k < |list| ==> LinkedAt(next, list, k)
  }

  ghost predicate LinkedAt(next: seq<int>, list: seq<int>, k: int)
    requires 0 <= k < |list|
  {
    0 <= list[k] < |next| && next[list[k]] == if k + 1 < |list| then list[k + 1] else -1
  }

  class Table {
    var nodes: seq<int>
    var first: seq<int>
    var next: seq<int>
    ghost var lists: seq<seq<int>>

    ghost predicate Valid()
      reads this
    {
      && |first| == |lists| == BUCKETS && |next| == |nodes|
      && Placed(lists, nodes)
      && forall b :: 0 <= b < BUCKETS ==> Linked(first[b], next, lists[b])
    }

    constructor ()
      ensures Valid() && nodes == []
    {
      nodes, next := [], [];
      first := seq(BUCKETS, i => -1);
      lists := seq(BUCKETS, i => []);
    }

    /** device_insert */
    method Insert(node: int) returns (dev: int)
      requires Valid()
      modifies this
      ensures Valid() && dev == old(|nodes|) && nodes == old(nodes) + [node]
    {
      var b := Hash(node);
      dev := |nodes|;
      InsertLinks(lists, first, next, nodes, node);
      nodes := nodes + [node];
      next := next + [first[b]];
      first := first[b := dev];
      lists := lists[b := [dev] + lists[b]];
    }

    /** device_lookup: a device of the node if there is one. */
    method Lookup(node: int) returns (dev: int)
      requires Valid()
      ensures dev == -1 || 0 <= dev < |nodes|
      ensures dev >= 0 ==> nodes[dev] == node
      ensures dev == -1 <==> node !in nodes
    {
      var b := Hash(node);
      ghost var list := lists[b];
      ghost var k := 0;
      dev := first[b];
      assert Linked(first[b], next, list);
      while dev != -1 && nodes[dev] != node
        invariant 0 <= k <= |list|
        invariant dev == if k < |list| then list[k] else -1
        invariant k < |list| ==> LinkedAt(next, list, k)
        invariant forall i :: 0 <= i < k ==> list[i] < 0 || list[i] >= |nodes| || nodes[list[i]] != node
        decreases |list| - k
      {
        assert LinkedAt(next, list, k);
        dev := next[dev];
        k := k + 1;
      }
      forall x | dev == -1 && 0 <= x < |nodes| ensures nodes[x] != node {
        if Hash(nodes[x]) == b {
          assert PlacedIn(list, nodes, b);
          assert multiset(list)[x] == Times(nodes, b, x);
          assert x in list;
          var i :| 0 <= i < |list| && list[i] == x;
        }
      }
    }

    /** The devices in the order of the walk. */
    ghost function Order(): seq<int>
      reads this
    {
      Flat(lists)
    }

    /** The devices visited once the walk has had k devices of bucket b. */
    ghost function Visited(b: int, k: int): seq<int>
      requires 0 <= b < |lists| && 0 <= k <= |lists[b]|
      reads this
    {
      Flat(lists[..b]) + lists[b][..k]
    }

    /** The walk's position: device dev is the k-th of bucket b. */
    ghost predicate IsAt(b: int, dev: int, k: int)
      reads this
    {
      0 <= b < |lists| && 0 < k <= |lists[b]| && dev == lists[b][k - 1]
    }

    lemma AtDevice(b: int, dev: int, k: int)
      requires Valid() && IsAt(b, dev, k)
      ensures 0 <= dev < |nodes| && |Visited(b, k)| <= |Order()|
    {
      assert LinkedAt(next, lists[b], k - 1);
      EndOfBucket(lists, b);
      FlatGrows(lists, b + 1);
    }

    /** device_next: the walk goes through Order() one device at a time. */
    method Next(b0: int, dev0: int, ghost k0: int) returns (b: int, dev: int, ghost k: int)
      requires Valid() && (IsAt(b0, dev0, k0) || (b0 == 0 && dev0 == -1 && k0 == 0))
      ensures dev == -1 ==> Visited(b0, k0) == Order()
      ensures dev != -1 ==> IsAt(b, dev, k) && Visited(b, k) == Visited(b0, k0) + [dev]
    {
      b, k := b0, k0;
      assert IsAt(b, dev0, k) ==> LinkedAt(next, lists[b], k - 1);
      if dev0 == -1 && b == 0 {
        dev := first[0];
        assert Linked(first[0], next, lists[0]);
      } else {
        dev := next[dev0];
      }
      while dev == -1 && b + 1 < BUCKETS
        invariant 0 <= b < BUCKETS && 0 <= k <= |lists[b]|
        invariant dev == if k < |lists[b]| then lists[b][k] else -1
        invariant k < |lists[b]| ==> LinkedAt(next, lists[b], k)
        invariant Visited(b, k) == Visited(b0, k0)
        decreases BUCKETS - b
      {
        EndOfBucket(lists, b);
        b, k := b + 1, 0;
        dev := first[b];
        assert Linked(first[b], next, lists[b]);
      }
      if dev == -1 {
        EndOfBucket(lists, b);
        assert lists[..b + 1] == lists;
      } else {
        k := k + 1;
        assert lists[b][..k] == lists[b][..k - 1] + [dev];
      }
    }

    /** Every device is visited exactly once. */
    lemma OrderIsExact(x: int)
      requires Valid()
      ensures multiset(Order())[x] == if 0 <= x < |nodes| then 1 else 0
    {
      FlatCounts(lists, nodes, x);
    }
  }

  lemma {:induction false} FlatGrows(lists: seq<seq<int>>, b: int)
    requires 0 <= b <= |lists|
    ensures |Flat(lists[..b])| <= |Flat(lists)|
  {
    var n := |lists| - 1;
    if b == |lists| {
      assert lists[..b] == lists;
    } else {
      FlatGrows(lists[..n], b);
      assert lists[..n][..b] == lists[..b];
    }
  }

  lemma EndOfBucket(lists: seq<seq<int>>, b: int)
    requires 0 <= b < |lists|
    ensures Flat(lists[..b]) + lists[b][..|lists[b]|] == Flat(lists[..b + 1])
  {
    assert lists[..b + 1][..b] == lists[..b];
    assert lists[b][..|lists[b]|] == lists[b];
  }

  /** A bucket's links survive one more device, and the new device may go in front. */
  lemma HeadLinked(first: int, next: seq<int>, list: seq<int>, behind: int)
    requires Linked(first, next, list)
    ensures Linked(first, next + [behind], list)
    ensures behind == first ==> Linked(|next|, next + [behind], [|next|] + list)
  {
    forall k | 0 <= k < |list| ensures LinkedAt(next + [behind], list, k) {
      assert LinkedAt(next, list, k);
    }
    var more := [|next|] + list;
    forall k | 0 <= k < |more| && behind == first ensures LinkedAt(next + [behind], more, k) {
      if k > 0 { assert LinkedAt(next, list, k - 1); }
    }
  }

  /** Putting a new device at the head of its bucket. */
  lemma InsertLinks(lists: seq<seq<int>>, first: seq<int>, next: seq<int>, nodes: seq<int>, node: int)
    requires |first| == |lists| == BUCKETS && |next| == |nodes| && Placed(lists, nodes)
    requires forall b :: 0 <= b < BUCKETS ==> Linked(first[b], next, lists[b])
    ensures var h, dev := Hash(node), |nodes|;
      var grown := lists[h := [dev] + lists[h]];
      && Placed(grown, nodes + [node])
      && forall b :: 0 <= b < BUCKETS ==> Linked(first[h := dev][b], next + [first[h]], grown[b])
  {
    var h, dev := Hash(node), |nodes|;
    var grown := lists[h := [dev] + lists[h]];
    forall b | 0 <= b < |grown| ensures PlacedIn(grown[b], nodes + [node], b) {
      assert PlacedIn(lists[b], nodes, b);
      forall x ensures multiset(grown[b])[x] == Times(nodes + [node], b, x) {
        assert multiset(lists[b])[x] == Times(nodes, b, x);
      }
    }
    forall b | 0 <= b < BUCKETS ensures Linked(first[h := dev][b], next + [first[h]], grown[b]) {
      HeadLinked(first[b], next, lists[b], first[h]);
      assert Linked(first[h], next, lists[h]);
      if b == h { HeadLinked(first[h], next, lists[h], first[h]); }
    }
  }
}
