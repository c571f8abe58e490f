/**
 The sort of qsort.c (Bentley and McIlroy, "Engineering a Sort Function"), on an array of elements:
 pseudo-median pivot, three-way partition with the equal elements parked at both ends, two block
 swaps that bring them to the middle, a switch to insertion sort when nothing moved, recursion on
 the left part and iteration on the right part.
 */
module Qsort {
  import opened Seal
  import opened Seqs
  import opened Arith

  type Compare<!T> = (T, T) -> int

  /** What qsort asks of its comparison function. */
  ghost predicate TotalPreorder<T(!new)>(cmp: Compare<T>) {
    && (forall x, y :: cmp(x, y) < 0 <==> cmp(y, x) > 0)
    && (forall x, y, z :: Le(cmp, x, y) && Le(cmp, y, z) ==> Le(cmp, x, z))
  }

  predicate Le<T>(cmp: Compare<T>, x: T, y: T) { cmp(x, y) <= 0 }

  predicate LeAt<T>(s: seq<T>, cmp: Compare<T>, i: int, j: int)
    requires 0 <= i < |s| && 0 <= j < |s|
  {
    cmp(s[i], s[j]) <= 0
  }

  ghost predicate Sorted<T>(s: seq<T>, cmp: Compare<T>, lo: int, hi: int) {
    InSequence(s, cmp, lo, hi) == true
  }

  ghost predicate InSequence<T>(s: seq<T>, cmp: Compare<T>, lo: int, hi: int) {
    forall i, j :: 0 <= lo <= i < j < hi <= |s| ==> LeAt(s, cmp, i, j)
  }

  // ---------------------------------------------------------------- permutations of a range

  /** t is s with the elements of [lo, hi) in some other order. */
  ghost predicate Shuffled<T>(s: seq<T>, t: seq<T>, lo: int, hi: int) {
    && |s| == |t| && 0 <= lo <= hi <= |s|
    && forall key: Key ::
      Opens(key) && key == OfShuffle ==> RestSame(s, t, lo, hi) && multiset(s[lo..hi]) == multiset(t[lo..hi])
  }

  ghost predicate RestSame<T>(s: seq<T>, t: seq<T>, lo: int, hi: int)
    requires |s| == |t| && 0 <= lo <= hi <= |s|
  {
    s[..lo] == t[..lo] && s[hi..] == t[hi..]
  }

  lemma ShuffledTwice<T>(s: seq<T>, t: seq<T>, u: seq<T>, lo: int, hi: int)
    requires Shuffled(s, t, lo, hi) && Shuffled(t, u, lo, hi)
    ensures Shuffled(s, u, lo, hi)
  {
    assert Opens(OfShuffle);
  }

  /** Shuffling part of a range shuffles the range. */
  lemma ShuffledPart<T>(s: seq<T>, t: seq<T>, lo: int, hi: int, lo': int, hi': int)
    requires Shuffled(s, t, lo', hi') && 0 <= lo <= lo' <= hi' <= hi <= |s|
    ensures Shuffled(s, t, lo, hi)
  {
    assert Opens(OfShuffle);
    PrefixRange(s, t, lo', 0, lo);
    PrefixRange(s, t, lo', lo, lo');
    SuffixRange(s, t, hi', hi', hi);
    SuffixRange(s, t, hi', hi, |s|);
    CutRange(s, lo, lo', hi', hi);
    CutRange(t, lo, lo', hi', hi);
    assert s[hi..] == s[hi..|s|] && t[hi..] == t[hi..|t|];
  }

  function Exchange<T>(s: seq<T>, i: int, j: int): seq<T>
    requires 0 <= i < |s| && 0 <= j < |s|
  {
    s[i := s[j]][j := s[i]]
  }

  lemma ExchangeShuffles<T>(s: seq<T>, lo: int, hi: int, i: int, j: int)
    requires 0 <= lo <= i < hi <= |s| && lo <= j < hi
    ensures Shuffled(s, Exchange(s, i, j), lo, hi)
  {
    assert Opens(OfShuffle);
    var t := Exchange(s, i, j);
    var u, v := s[lo..hi], t[lo..hi];
    var w := u[i - lo := u[j - lo]][j - lo := u[i - lo]];
    assert forall k :: 0 <= k < hi - lo ==> v[k] == w[k];
    assert v == w;
  }

  /** What holds of every element of a range holds of it after a shuffle. */
  lemma ShuffledKeeps<T>(s: seq<T>, t: seq<T>, lo: int, hi: int, p: T -> bool)
    requires Shuffled(s, t, lo, hi) && forall i :: lo <= i < hi ==> p(s[i])
    ensures forall i :: lo <= i < hi ==> p(t[i])
  {
    assert Opens(OfShuffle);
    forall i | lo <= i < hi ensures p(t[i]) {
      assert t[i] == t[lo..hi][i - lo];
      assert t[i] in multiset(t[lo..hi]);
      assert t[i] in multiset(s[lo..hi]);
      var k :| 0 <= k < hi - lo && s[lo..hi][k] == t[i];
      assert p(s[lo + k]);
    }
  }

  // ---------------------------------------------------------------- the pieces of the sort

  method Swap<T>(a: array<T>, i: int, j: int)
    requires 0 <= i < a.Length && 0 <= j < a.Length
    modifies a
    ensures a[..] == Exchange(old(a[..]), i, j)
  {
    a[i], a[j] := a[j], a[i];
  }

  /** The element at m lies between the other two. */
  predicate Between<T>(s: seq<T>, cmp: Compare<T>, p: int, m: int, q: int) {
    && 0 <= p < |s| && 0 <= m < |s| && 0 <= q < |s|
    && ((cmp(s[p], s[m]) <= 0 && cmp(s[m], s[q]) <= 0) || (cmp(s[q], s[m]) <= 0 && cmp(s[m], s[p]) <= 0))
  }

  predicate IsMedian<T>(s: seq<T>, cmp: Compare<T>, x: int, y: int, z: int, m: int) {
    MedianOf(s, cmp, x, y, z, m) == true
  }

  predicate MedianOf<T>(s: seq<T>, cmp: Compare<T>, x: int, y: int, z: int, m: int) {
    (m == x && Between(s, cmp, y, x, z)) || (m == y && Between(s, cmp, x, y, z)) || (m == z && Between(s, cmp, x, z, y))
  }

  /** The median of three elements, by index. */
  method Med3<T(!new)>(a: array<T>, x: int, y: int, z: int, cmp: Compare<T>) returns (m: int)
    requires 0 <= x < a.Length && 0 <= y < a.Length && 0 <= z < a.Length && TotalPreorder(cmp)
    ensures IsMedian(a[..], cmp, x, y, z, m) && (m == x || m == y || m == z)
  {
    if cmp(a[x], a[y]) < 0 {
      m := if cmp(a[y], a[z]) < 0 then y else if cmp(a[x], a[z]) < 0 then z else x;
    } else {
      m := if cmp(a[y], a[z]) > 0 then y else if cmp(a[x], a[z]) < 0 then x else z;
    }
  }

  /** [lo, hi) is sorted except that element k may belong further left. */
  ghost predicate SortedBut<T>(s: seq<T>, cmp: Compare<T>, lo: int, hi: int, k: int) {
    AllButOne(s, cmp, lo, hi, k) == true
  }

  ghost predicate AllButOne<T>(s: seq<T>, cmp: Compare<T>, lo: int, hi: int, k: int) {
    && 0 <= lo <= k < hi <= |s|
    && (forall i, j :: lo <= i < j < hi && i != k && j != k ==> LeAt(s, cmp, i, j))
    && (forall j :: k < j < hi ==> LeAt(s, cmp, k, j))
  }

  lemma SinkStep<T(!new)>(s: seq<T>, cmp: Compare<T>, lo: int, hi: int, k: int)
    requires TotalPreorder(cmp) && SortedBut(s, cmp, lo, hi, k) && lo < k && cmp(s[k - 1], s[k]) > 0
    ensures SortedBut(Exchange(s, k, k - 1), cmp, lo, hi, k - 1)
  {
    var t := Exchange(s, k, k - 1);
    forall i, j | lo <= i < j < hi && i != k - 1 && j != k - 1 ensures LeAt(t, cmp, i, j) {
      assert LeAt(s, cmp, if i == k then k - 1 else i, if j == k then k - 1 else j);
    }
    var m := k - 1;
    forall j | m < j < hi ensures LeAt(t, cmp, m, j) {
      if j > k { assert LeAt(s, cmp, k, j); }
    }
  }

  lemma SinkMove<T(!new)>(s0: seq<T>, s: seq<T>, cmp: Compare<T>, lo: int, hi: int, k: int)
    requires Shuffled(s0, s, lo, hi)
    requires TotalPreorder(cmp) && SortedBut(s, cmp, lo, hi, k) && lo < k && cmp(s[k - 1], s[k]) > 0
    ensures Shuffled(s0, Exchange(s, k, k - 1), lo, hi)
    ensures SortedBut(Exchange(s, k, k - 1), cmp, lo, hi, k - 1)
  {
    SinkStep(s, cmp, lo, hi, k);
    StillShuffled(s0, s, k, k - 1, lo, hi);
  }

  lemma SinkDone<T(!new)>(s: seq<T>, cmp: Compare<T>, lo: int, hi: int, k: int)
    requires TotalPreorder(cmp) && SortedBut(s, cmp, lo, hi, k) && (k == lo || cmp(s[k - 1], s[k]) <= 0)
    ensures Sorted(s, cmp, lo, hi)
  {
    forall i, j | lo <= i < j < hi ensures LeAt(s, cmp, i, j) {
      if j == k && i < k - 1 {
        assert LeAt(s, cmp, i, k - 1) && Le(cmp, s[i], s[k - 1]) && Le(cmp, s[k - 1], s[k]);
      }
    }
  }

  lemma SinkStart<T>(s: seq<T>, cmp: Compare<T>, lo: int, k: int)
    requires 0 <= lo <= k < |s| && Sorted(s, cmp, lo, k)
    ensures SortedBut(s, cmp, lo, k + 1, k)
  {
  }

  /** Move element pm left to its place in the sorted range before it. */
  method Sink<T(!new)>(a: array<T>, lo: int, pm: int, cmp: Compare<T>)
    requires 0 <= lo <= pm < a.Length && TotalPreorder(cmp) && Sorted(a[..], cmp, lo, pm)
    modifies a
    ensures Sorted(a[..], cmp, lo, pm + 1) && Shuffled(old(a[..]), a[..], lo, pm + 1)
  {
    ghost var s0, s := a[..], a[..];
    var pl := pm;
    ShuffledSame(s0, lo, pm + 1);
    SinkStart(s0, cmp, lo, pm);
    while pl > lo && cmp(a[pl - 1], a[pl]) > 0
      invariant lo <= pl <= pm && s == a[..]
      invariant Shuffled(s0, s, lo, pm + 1)
      invariant SortedBut(s, cmp, lo, pm + 1, pl)
    {
      SinkOne(a, lo, pm + 1, pl, cmp, s0, s);
      s := Exchange(s, pl, pl - 1);
      pl := pl - 1;
    }
    SinkDone(s, cmp, lo, pm + 1, pl);
  }

  method SinkOne<T(!new)>(a: array<T>, ghost lo: int, ghost hi: int, k: int, cmp: Compare<T>, ghost s0: seq<T>,
                   ghost s: seq<T>)
    requires s == a[..] && Shuffled(s0, s, lo, hi)
    requires TotalPreorder(cmp) && SortedBut(s, cmp, lo, hi, k) && lo < k && cmp(s[k - 1], s[k]) > 0
    modifies a
    ensures a[..] == Exchange(s, k, k - 1) && Shuffled(s0, a[..], lo, hi) && SortedBut(a[..], cmp, lo, hi, k - 1)
  {
    SinkMove(s0, s, cmp, lo, hi, k);
    Swap(a, k, k - 1);
  }

  /** Sort [lo, hi) by insertion. */
  method InsertionSort<T(!new)>(a: array<T>, lo: int, hi: int, cmp: Compare<T>)
    requires 0 <= lo <= hi <= a.Length && TotalPreorder(cmp)
    modifies a
    ensures Sorted(a[..], cmp, lo, hi) && Shuffled(old(a[..]), a[..], lo, hi)
  {
    var pm := lo + 1;
    while pm < hi
      invariant lo + 1 <= pm && (pm <= hi || pm == lo + 1)
      invariant Shuffled(old(a[..]), a[..], lo, hi)
      invariant pm <= hi ==> Sorted(a[..], cmp, lo, pm)
    {
      ghost var s := a[..];
      Sink(a, lo, pm, cmp);
      ShuffledPart(s, a[..], lo, hi, lo, pm + 1);
      ShuffledTwice(old(a[..]), s, a[..], lo, hi);
      pm := pm + 1;
    }
  }

  // ---------------------------------------------------------------- the partition

  /** Positions in the fat partition around the pivot at lo. */
  datatype Cut = Cut(pa: int, pb: int, pc: int, pd: int)

  /**
   Equal elements lie left of pa and right of pd, smaller ones in [pa, pb), larger ones in (pc, pd];
   [pb, pc] is still to be looked at.
   */
  ghost predicate Partitioning<T>(s: seq<T>, cmp: Compare<T>, lo: int, hi: int, c: Cut) {
    CutsInOrder(lo, hi, c) && hi <= |s| && Classified(s, cmp, lo, hi, c) == true
  }

  predicate CutsInOrder(lo: int, hi: int, c: Cut) {
    0 <= lo < c.pa <= c.pb <= c.pc + 1 <= c.pd + 1 <= hi
  }

  ghost predicate Classified<T>(s: seq<T>, cmp: Compare<T>, lo: int, hi: int, c: Cut)
    requires CutsInOrder(lo, hi, c) && hi <= |s|
  {
    && (forall i :: lo <= i < c.pa || c.pd < i < hi ==> cmp(s[i], s[lo]) == 0)
    && (forall i :: c.pa <= i < c.pb ==> cmp(s[i], s[lo]) < 0)
    && (forall i :: c.pc < i <= c.pd ==> cmp(s[i], s[lo]) > 0)
  }

  lemma StartPartition<T(!new)>(s: seq<T>, cmp: Compare<T>, lo: int, hi: int)
    requires 0 <= lo < hi <= |s| && TotalPreorder(cmp)
    ensures Partitioning(s, cmp, lo, hi, Cut(lo + 1, lo + 1, hi - 1, hi - 1))
  {
    assert cmp(s[lo], s[lo]) == 0;
  }

  lemma StepSmaller<T>(s: seq<T>, cmp: Compare<T>, lo: int, hi: int, c: Cut)
    requires Partitioning(s, cmp, lo, hi, c) && c.pb <= c.pc && cmp(s[c.pb], s[lo]) < 0
    ensures Partitioning(s, cmp, lo, hi, c.(pb := c.pb + 1))
  {
  }

  lemma StepEqualLeft<T>(s: seq<T>, cmp: Compare<T>, lo: int, hi: int, c: Cut)
    requires Partitioning(s, cmp, lo, hi, c) && c.pb <= c.pc && cmp(s[c.pb], s[lo]) == 0
    ensures Partitioning(Exchange(s, c.pa, c.pb), cmp, lo, hi, c.(pa := c.pa + 1, pb := c.pb + 1))
    ensures Shuffled(s, Exchange(s, c.pa, c.pb), lo, hi)
  {
    ExchangeShuffles(s, lo, hi, c.pa, c.pb);
  }

  lemma StepLarger<T>(s: seq<T>, cmp: Compare<T>, lo: int, hi: int, c: Cut)
    requires Partitioning(s, cmp, lo, hi, c) && c.pb <= c.pc && cmp(s[c.pc], s[lo]) > 0
    ensures Partitioning(s, cmp, lo, hi, c.(pc := c.pc - 1))
  {
  }

  lemma StepEqualRight<T>(s: seq<T>, cmp: Compare<T>, lo: int, hi: int, c: Cut)
    requires Partitioning(s, cmp, lo, hi, c) && c.pb <= c.pc && cmp(s[c.pc], s[lo]) == 0
    ensures Partitioning(Exchange(s, c.pc, c.pd), cmp, lo, hi, c.(pc := c.pc - 1, pd := c.pd - 1))
    ensures Shuffled(s, Exchange(s, c.pc, c.pd), lo, hi)
    ensures Exchange(s, c.pc, c.pd)[lo] == s[lo] && (c.pb < c.pc ==> Exchange(s, c.pc, c.pd)[c.pb] == s[c.pb])
  {
    ExchangeShuffles(s, lo, hi, c.pc, c.pd);
  }

  lemma StepExchange<T>(s: seq<T>, cmp: Compare<T>, lo: int, hi: int, c: Cut)
    requires Partitioning(s, cmp, lo, hi, c) && c.pb < c.pc && cmp(s[c.pb], s[lo]) > 0 && cmp(s[c.pc], s[lo]) < 0
    ensures Partitioning(Exchange(s, c.pb, c.pc), cmp, lo, hi, c.(pb := c.pb + 1, pc := c.pc - 1))
    ensures Shuffled(s, Exchange(s, c.pb, c.pc), lo, hi)
  {
    ExchangeShuffles(s, lo, hi, c.pb, c.pc);
  }

  lemma ShuffledSame<T>(s: seq<T>, lo: int, hi: int)
    requires 0 <= lo <= hi <= |s|
    ensures Shuffled(s, s, lo, hi)
  {
  }

  /** First inner loop: skip smaller elements, park equal ones at the left end. */
  method ScanRight<T(!new)>(a: array<T>, lo: int, hi: int, c0: Cut, cmp: Compare<T>, swapped0: bool)
    returns (c: Cut, swapped: bool)
    requires TotalPreorder(cmp) && Partitioning(a[..], cmp, lo, hi, c0)
    modifies a
    ensures Partitioning(a[..], cmp, lo, hi, c) && Shuffled(old(a[..]), a[..], lo, hi)
    ensures c.pc == c0.pc && c0.pb <= c.pb && (c.pb <= c.pc ==> cmp(a[c.pb], a[lo]) > 0)
  {
    c, swapped := c0, swapped0;
    ShuffledSame(a[..], lo, hi);
    while c.pb <= c.pc && cmp(a[c.pb], a[lo]) <= 0
      invariant Partitioning(a[..], cmp, lo, hi, c) && c0.pb <= c.pb && c.pc == c0.pc
      invariant Shuffled(old(a[..]), a[..], lo, hi)
      decreases c.pc - c.pb
    {
      ghost var s := a[..];
      if cmp(a[c.pb], a[lo]) == 0 {
        swapped := true;
        StepEqualLeft(s, cmp, lo, hi, c);
        Swap(a, c.pa, c.pb);
        ShuffledTwice(old(a[..]), s, a[..], lo, hi);
        c := c.(pa := c.pa + 1, pb := c.pb + 1);
      } else {
        StepSmaller(s, cmp, lo, hi, c);
        c := c.(pb := c.pb + 1);
      }
    }
  }

  /** Second inner loop: skip larger elements, park equal ones at the right end. */
  method ScanLeft<T(!new)>(a: array<T>, lo: int, hi: int, c0: Cut, cmp: Compare<T>, swapped0: bool)
    returns (c: Cut, swapped: bool)
    requires TotalPreorder(cmp) && Partitioning(a[..], cmp, lo, hi, c0)
    requires c0.pb <= c0.pc ==> cmp(a[c0.pb], a[lo]) > 0
    modifies a
    ensures Partitioning(a[..], cmp, lo, hi, c) && Shuffled(old(a[..]), a[..], lo, hi)
    ensures c.pb == c0.pb && c.pc <= c0.pc
    ensures c.pb <= c.pc ==> c.pb < c.pc && cmp(a[c.pb], a[lo]) > 0 && cmp(a[c.pc], a[lo]) < 0
  {
    c, swapped := c0, swapped0;
    ShuffledSame(a[..], lo, hi);
    while c.pb <= c.pc && cmp(a[c.pc], a[lo]) >= 0
      invariant Partitioning(a[..], cmp, lo, hi, c) && c.pb == c0.pb && c.pc <= c0.pc
      invariant Shuffled(old(a[..]), a[..], lo, hi)
      invariant c.pb <= c.pc ==> cmp(a[c.pb], a[lo]) > 0
      decreases c.pc - c.pb
    {
      ghost var s := a[..];
      if cmp(a[c.pc], a[lo]) == 0 {
        swapped := true;
        StepEqualRight(s, cmp, lo, hi, c);
        Swap(a, c.pc, c.pd);
        ShuffledTwice(old(a[..]), s, a[..], lo, hi);
        c := c.(pc := c.pc - 1, pd := c.pd - 1);
      } else {
        StepLarger(s, cmp, lo, hi, c);
        c := c.(pc := c.pc - 1);
      }
    }
  }

  /** The partition loop around the pivot at lo. */
  method Partition<T(!new)>(a: array<T>, lo: int, hi: int, cmp: Compare<T>) returns (c: Cut, swapped: bool)
    requires 0 <= lo < hi <= a.Length && TotalPreorder(cmp)
    modifies a
    ensures Partitioning(a[..], cmp, lo, hi, c) && c.pb == c.pc + 1
    ensures Shuffled(old(a[..]), a[..], lo, hi)
  {
    c, swapped := Cut(lo + 1, lo + 1, hi - 1, hi - 1), false;
    StartPartition(a[..], cmp, lo, hi);
    ShuffledSame(a[..], lo, hi);
    while true
      invariant Partitioning(a[..], cmp, lo, hi, c)
      invariant Shuffled(old(a[..]), a[..], lo, hi)
      decreases c.pc - c.pb + 1
    {
      ghost var s := a[..];
      c, swapped := ScanRight(a, lo, hi, c, cmp, swapped);
      ghost var t := a[..];
      ShuffledTwice(old(a[..]), s, t, lo, hi);
      c, swapped := ScanLeft(a, lo, hi, c, cmp, swapped);
      ghost var u := a[..];
      ShuffledTwice(old(a[..]), t, u, lo, hi);
      if c.pb > c.pc { return; }
      StepExchange(u, cmp, lo, hi, c);
      Swap(a, c.pb, c.pc);
      ShuffledTwice(old(a[..]), u, a[..], lo, hi);
      swapped := true;
      c := c.(pb := c.pb + 1, pc := c.pc - 1);
    }
  }

  // ---------------------------------------------------------------- bringing the equal elements together

  /** Where element k comes from when the blocks [i, i + n) and [j, j + n) are exchanged. */
  function Partner(i: int, j: int, n: int, k: int): int {
    if i <= k < i + n then k - i + j else if j <= k < j + n then k - j + i else k
  }

  /** t is s with the two blocks exchanged. */
  ghost predicate Swapped<T>(s: seq<T>, t: seq<T>, i: int, j: int, n: int) {
    IsSwapped(s, t, i, j, n) == true
  }

  ghost predicate IsSwapped<T>(s: seq<T>, t: seq<T>, i: int, j: int, n: int) {
    && 0 <= i && 0 <= n && i + n <= j && j + n <= |s| && |t| == |s|
    && forall k :: 0 <= k < |s| ==> t[k] == s[Partner(i, j, n, k)]
  }

  lemma SwappedNone<T>(s: seq<T>, i: int, j: int)
    requires 0 <= i <= j <= |s|
    ensures Swapped(s, s, i, j, 0)
  {
  }

  lemma SwappedMore<T>(s0: seq<T>, s: seq<T>, i: int, j: int, n: int)
    requires Swapped(s0, s, i, j, n) && i + n < j && j + n < |s0|
    ensures |s| == |s0| && Swapped(s0, Exchange(s, i + n, j + n), i, j, n + 1)
  {
    var t := Exchange(s, i + n, j + n);
    forall k | 0 <= k < |s0| ensures t[k] == s0[Partner(i, j, n + 1, k)] {
      assert s[k] == s0[Partner(i, j, n, k)];
    }
  }

  lemma StillShuffled<T>(s0: seq<T>, s: seq<T>, i: int, j: int, lo: int, hi: int)
    requires Shuffled(s0, s, lo, hi) && 0 <= lo <= i < hi <= |s| && lo <= j < hi
    ensures Shuffled(s0, Exchange(s, i, j), lo, hi)
  {
    ExchangeShuffles(s, lo, hi, i, j);
    ShuffledTwice(s0, s, Exchange(s, i, j), lo, hi);
  }

  method VecSwap<T>(a: array<T>, i: int, j: int, n: int, ghost lo: int, ghost hi: int)
    requires 0 <= lo <= i && 0 <= n && i + n <= j && j + n <= hi <= a.Length
    modifies a
    ensures Swapped(old(a[..]), a[..], i, j, n) && Shuffled(old(a[..]), a[..], lo, hi)
  {
    ghost var s0, s := a[..], a[..];
    ShuffledSame(s0, lo, hi);
    SwappedNone(s0, i, j);
    var k := 0;
    while k < n
      invariant 0 <= k <= n && s == a[..]
      invariant Swapped(s0, s, i, j, k) && Shuffled(s0, s, lo, hi)
    {
      SwappedMore(s0, s, i, j, k);
      StillShuffled(s0, s, i + k, j + k, lo, hi);
      Swap(a, i + k, j + k);
      s := Exchange(s, i + k, j + k);
      k := k + 1;
    }
  }

  /** nl elements smaller than p, then elements equal to p (at least one), then nr larger ones. */
  ghost predicate ThreeWay<T>(s: seq<T>, cmp: Compare<T>, lo: int, hi: int, nl: int, nr: int, p: T) {
    ThreeParts(s, cmp, lo, hi, nl, nr, p) == true
  }

  ghost predicate ThreeParts<T>(s: seq<T>, cmp: Compare<T>, lo: int, hi: int, nl: int, nr: int, p: T) {
    && 0 <= lo && 0 <= nl && 0 <= nr && lo + nl < hi - nr && hi <= |s|
    && (forall i :: lo <= i < lo + nl ==> cmp(s[i], p) < 0)
    && (forall i :: lo + nl <= i < hi - nr ==> cmp(s[i], p) == 0)
    && (forall i :: hi - nr <= i < hi ==> cmp(s[i], p) > 0)
  }

  /** The first block swap brings the smaller elements to the front. */
  lemma GatheredLeft<T>(s: seq<T>, t: seq<T>, cmp: Compare<T>, lo: int, hi: int, c: Cut, r: int)
    requires Partitioning(s, cmp, lo, hi, c) && r == Min(c.pa - lo, c.pb - c.pa) && Swapped(s, t, lo, c.pb - r, r)
    ensures |t| == |s|
    ensures forall i :: lo <= i < lo + (c.pb - c.pa) ==> cmp(t[i], s[lo]) < 0
    ensures forall i :: lo + (c.pb - c.pa) <= i < c.pb ==> cmp(t[i], s[lo]) == 0
    ensures forall i :: c.pb <= i < hi ==> t[i] == s[i]
  {
    forall i | lo <= i < c.pb
      ensures if i < lo + (c.pb - c.pa) then cmp(t[i], s[lo]) < 0 else cmp(t[i], s[lo]) == 0
    {
      assert t[i] == s[Partner(lo, c.pb - r, r, i)];
    }
  }

  /** The second block swap brings the larger elements to the end. */
  lemma GatheredRight<T>(s: seq<T>, t: seq<T>, u: seq<T>, cmp: Compare<T>, lo: int, hi: int, c: Cut, r: int)
    requires Partitioning(s, cmp, lo, hi, c) && c.pb == c.pc + 1 && |t| == |s|
    requires r == Min(c.pd - c.pc, hi - c.pd - 1) && Swapped(t, u, c.pb, hi - r, r)
    requires forall i :: c.pb <= i < hi ==> t[i] == s[i]
    ensures |u| == |t|
    ensures forall i :: lo <= i < c.pb ==> u[i] == t[i]
    ensures forall i :: c.pb <= i < hi - (c.pd - c.pc) ==> cmp(u[i], s[lo]) == 0
    ensures forall i :: hi - (c.pd - c.pc) <= i < hi ==> cmp(u[i], s[lo]) > 0
  {
    forall i | c.pb <= i < hi
      ensures if i < hi - (c.pd - c.pc) then cmp(u[i], s[lo]) == 0 else cmp(u[i], s[lo]) > 0
    {
      assert u[i] == t[Partner(c.pb, hi - r, r, i)];
    }
  }

  /** Partition and both block swaps leave smaller, equal, larger. */
  lemma Gathered<T>(s: seq<T>, t: seq<T>, u: seq<T>, cmp: Compare<T>, lo: int, hi: int, c: Cut, r: int, r2: int, x: int,
                    y: int, nl: int, nr: int)
    requires Partitioning(s, cmp, lo, hi, c) && c.pb == c.pc + 1
    requires r == Min(c.pa - lo, c.pb - c.pa) && r2 == Min(c.pd - c.pc, hi - c.pd - 1)
    requires x == c.pb - r && y == hi - r2 && nl == c.pb - c.pa && nr == c.pd - c.pc
    requires Swapped(s, t, lo, x, r) && Swapped(t, u, c.pb, y, r2)
    ensures ThreeWay(u, cmp, lo, hi, nl, nr, s[lo])
  {
    GatheredLeft(s, t, cmp, lo, hi, c, r);
    GatheredRight(s, t, u, cmp, lo, hi, c, r2);
  }

  // ---------------------------------------------------------------- the sort

  /** Medians of three at the start, in the middle and at the end of a range, an eighth of it apart. */
  predicate NinthMedians<T>(s: seq<T>, cmp: Compare<T>, lo: int, n: int, pl: int, pm: int, pn: int) {
    Medians(s, cmp, lo, n, n / 8, pl, pm, pn) == true
  }

  predicate Medians<T>(s: seq<T>, cmp: Compare<T>, lo: int, n: int, d: int, pl: int, pm: int, pn: int) {
    && IsMedian(s, cmp, lo, lo + d, lo + 2 * d, pl)
    && IsMedian(s, cmp, lo + n / 2 - d, lo + n / 2, lo + n / 2 + d, pm)
    && IsMedian(s, cmp, lo + (n - 1) - 2 * d, lo + (n - 1) - d, lo + (n - 1), pn)
  }

  /** The middle for seven elements, the median of first, middle and last up to forty, and the median of three medians
      beyond. */
  ghost predicate PseudoMedian<T>(s: seq<T>, cmp: Compare<T>, lo: int, n: int, m: int) {
    if n == 7 then m == lo + 3
    else if n <= 40 then IsMedian(s, cmp, lo, lo + n / 2, lo + (n - 1), m)
    else exists pl, pm, pn :: NinthMedians(s, cmp, lo, n, pl, pm, pn) && IsMedian(s, cmp, pl, pm, pn, m)
  }

  /** The index of the pivot: the middle, a median of three, or a median of three medians. */
  method ChoosePivot<T(!new)>(a: array<T>, lo: int, n: int, cmp: Compare<T>) returns (pm: int)
    requires 0 <= lo && 7 <= n && lo + n <= a.Length && TotalPreorder(cmp)
    ensures lo <= pm < lo + n && PseudoMedian(a[..], cmp, lo, n, pm)
  {
    pm := lo + n / 2;
    if n > 7 {
      var pl := lo;
      var pn := lo + (n - 1);
      if n > 40 { pl, pm, pn := ThreeMedians(a, lo, n, cmp); }
      ghost var p0 := pm;
      pm := Med3(a, pl, pm, pn, cmp);
      assert n > 40 ==> NinthMedians(a[..], cmp, lo, n, pl, p0, pn) && IsMedian(a[..], cmp, pl, p0, pn, pm);
    }
  }

  method ThreeMedians<T(!new)>(a: array<T>, lo: int, n: int, cmp: Compare<T>) returns (pl: int, pm: int, pn: int)
    requires 0 <= lo && 40 < n && lo + n <= a.Length && TotalPreorder(cmp)
    ensures lo <= pl < lo + n && lo <= pm < lo + n && lo <= pn < lo + n && NinthMedians(a[..], cmp, lo, n, pl, pm, pn)
  {
    var d := n / 8;
    pl := Med3Within(a, lo, n, lo, lo + d, lo + 2 * d, cmp);
    pm := Med3Within(a, lo, n, lo + n / 2 - d, lo + n / 2, lo + n / 2 + d, cmp);
    pn := Med3Within(a, lo, n, lo + (n - 1) - 2 * d, lo + (n - 1) - d, lo + (n - 1), cmp);
  }

  method Med3Within<T(!new)>(a: array<T>, ghost lo: int, ghost n: int, x: int, y: int, z: int, cmp: Compare<T>)
    returns (m: int)
    requires 0 <= lo && lo + n <= a.Length && lo <= x < lo + n && lo <= y < lo + n && lo <= z < lo + n
    requires TotalPreorder(cmp)
    ensures lo <= m < lo + n && IsMedian(a[..], cmp, x, y, z, m)
  {
    m := Med3(a, x, y, z, cmp);
  }

  /** The two block swaps after a partition. */
  method Gather<T(!new)>(a: array<T>, lo: int, hi: int, c: Cut, cmp: Compare<T>)
    requires Partitioning(a[..], cmp, lo, hi, c) && c.pb == c.pc + 1
    modifies a
    ensures Shuffled(old(a[..]), a[..], lo, hi)
    ensures ThreeWay(a[..], cmp, lo, hi, c.pb - c.pa, c.pd - c.pc, old(a[lo]))
  {
    ghost var s := a[..];
    var r := Min(c.pa - lo, c.pb - c.pa);
    var x := c.pb - r;
    VecSwap(a, lo, x, r, lo, hi);
    ghost var t := a[..];
    var r2 := Min(c.pd - c.pc, hi - c.pd - 1);
    var y := hi - r2;
    VecSwap(a, c.pb, y, r2, lo, hi);
    ghost var u := a[..];
    ShuffledTwice(s, t, u, lo, hi);
    Gathered(s, t, u, cmp, lo, hi, c, r, r2, x, y, c.pb - c.pa, c.pd - c.pc);
  }

  /** One round: partition [lo, hi), or sort it outright when the partition moved nothing. */
  method Round<T(!new)>(a: array<T>, lo: int, hi: int, cmp: Compare<T>)
    returns (done: bool, nl: int, nr: int, ghost p: T)
    requires 0 <= lo && 7 <= hi - lo && hi <= a.Length && TotalPreorder(cmp)
    modifies a
    ensures Shuffled(old(a[..]), a[..], lo, hi)
    ensures done ==> Sorted(a[..], cmp, lo, hi)
    ensures !done ==> ThreeWay(a[..], cmp, lo, hi, nl, nr, p)
  {
    ghost var s0 := a[..];
    var pm := ChoosePivot(a, lo, hi - lo, cmp);
    ExchangeShuffles(s0, lo, hi, lo, pm);
    Swap(a, lo, pm);
    ghost var s1 := a[..];
    var c, swapped := Partition(a, lo, hi, cmp);
    ghost var s2 := a[..];
    ShuffledTwice(s0, s1, s2, lo, hi);
    nl, nr, p := c.pb - c.pa, c.pd - c.pc, a[lo];
    done := !swapped;
    if done {
      InsertionSort(a, lo, hi, cmp);
    } else {
      Gather(a, lo, hi, c, cmp);
    }
    ShuffledTwice(s0, s2, a[..], lo, hi);
  }

  /** Everything in [lo, k) may stand before everything in [k, hi). */
  ghost predicate Below<T>(s: seq<T>, cmp: Compare<T>, lo: int, k: int, hi: int) {
    AllBelow(s, cmp, lo, k, hi) == true
  }

  ghost predicate AllBelow<T>(s: seq<T>, cmp: Compare<T>, lo: int, k: int, hi: int) {
    0 <= lo <= k <= hi <= |s| && forall i, j :: lo <= i < k <= j < hi ==> LeAt(s, cmp, i, j)
  }

  /** Sorting the left part of a three-way range sorts all but its right part. */
  lemma LeftSorted<T(!new)>(s: seq<T>, t: seq<T>, cmp: Compare<T>, lo: int, hi: int, nl: int, nr: int, p: T)
    requires TotalPreorder(cmp) && ThreeWay(s, cmp, lo, hi, nl, nr, p)
    requires Shuffled(s, t, lo, lo + nl) && Sorted(t, cmp, lo, lo + nl)
    ensures Sorted(t, cmp, lo, hi - nr) && Below(t, cmp, lo, hi - nr, hi)
  {
    ShuffledKeeps(s, t, lo, lo + nl, x => cmp(x, p) < 0);
    RestKept(s, t, lo, lo + nl);
    forall i, j | lo <= i < j < hi && i < hi - nr && !(j < lo + nl) ensures LeAt(t, cmp, i, j) {
      OrderedByPivot(cmp, t[i], t[j], p);
    }
  }

  lemma RestKept<T>(s: seq<T>, t: seq<T>, lo: int, hi: int)
    requires Shuffled(s, t, lo, hi)
    ensures |s| == |t| && forall i :: (0 <= i < lo || hi <= i < |s|) ==> t[i] == s[i]
  {
    assert Opens(OfShuffle);
    forall i | 0 <= i < lo || hi <= i < |s| ensures t[i] == s[i] {
      if i < lo { assert s[..lo][i] == t[..lo][i]; } else { assert s[hi..][i - hi] == t[hi..][i - hi]; }
    }
  }

  lemma OrderedByPivot<T(!new)>(cmp: Compare<T>, x: T, y: T, p: T)
    requires TotalPreorder(cmp) && cmp(x, p) <= 0 && cmp(y, p) >= 0
    ensures cmp(x, y) <= 0
  {
    assert Le(cmp, x, p) && Le(cmp, p, y);
  }

  /** Work on the right part leaves the sorted left part below it. */
  lemma StillBelow<T>(s: seq<T>, t: seq<T>, cmp: Compare<T>, lo: int, k: int, hi: int)
    requires Sorted(s, cmp, lo, k) && Below(s, cmp, lo, k, hi) && Shuffled(s, t, k, hi)
    ensures Sorted(t, cmp, lo, k) && Below(t, cmp, lo, k, hi)
  {
    RestKept(s, t, k, hi);
    forall i, j | lo <= i < k <= j < hi ensures LeAt(t, cmp, i, j) {
      var x := s[i];
      forall n | k <= n < hi ensures cmp(x, s[n]) <= 0 { assert LeAt(s, cmp, i, n); }
      ShuffledKeeps(s, t, k, hi, y => cmp(x, y) <= 0);
    }
    forall i, j | lo <= i < j < k ensures LeAt(t, cmp, i, j) { assert LeAt(s, cmp, i, j); }
  }

  method Sort<T(!new)>(a: array<T>, lo: int, hi: int, cmp: Compare<T>)
    requires 0 <= lo <= hi <= a.Length && TotalPreorder(cmp)
    modifies a
    ensures Sorted(a[..], cmp, lo, hi) && Shuffled(old(a[..]), a[..], lo, hi)
    decreases hi - lo
  {
    ghost var s0 := a[..];
    var l := lo;
    ShuffledSame(s0, lo, hi);
    while true
      invariant lo <= l <= hi
      invariant Sorted(a[..], cmp, lo, l) && Below(a[..], cmp, lo, l, hi) && Shuffled(s0, a[..], lo, hi)
      decreases hi - l
    {
      ghost var s := a[..];
      var done, next := SortLeft(a, l, hi, cmp);
      StillBelow(s, a[..], cmp, lo, l, hi);
      ShuffledPart(s, a[..], lo, hi, l, hi);
      ShuffledTwice(s0, s, a[..], lo, hi);
      JoinLeft(a[..], cmp, lo, l, next, hi);
      if done { return; }
      l := next;
    }
  }

  /** The body of the loop: afterwards [lo, next) is in place, and all of [lo, hi) when done. */
  method SortLeft<T(!new)>(a: array<T>, lo: int, hi: int, cmp: Compare<T>) returns (done: bool, next: int)
    requires 0 <= lo <= hi <= a.Length && TotalPreorder(cmp)
    modifies a
    ensures Shuffled(old(a[..]), a[..], lo, hi)
    ensures lo <= next <= hi && Sorted(a[..], cmp, lo, next) && Below(a[..], cmp, lo, next, hi)
    ensures if done then next == hi else lo < next
    decreases hi - lo, 1
  {
    ghost var s0 := a[..];
    next := hi;
    if hi - lo < 7 {
      InsertionSort(a, lo, hi, cmp);
      done := true;
    } else {
      var nl, nr;
      ghost var p;
      done, nl, nr, p := Round(a, lo, hi, cmp);
      if !done {
        ghost var s1 := a[..];
        SortSmaller(a, lo, hi, nl, nr, p, cmp);
        ShuffledTwice(s0, s1, a[..], lo, hi);
        done := nr <= 1;
        if done { LastOne(a[..], cmp, lo, hi - nr, hi); } else { next := hi - nr; }
      }
    }
  }

  /** The smaller elements of a round are sorted: all but the larger ones are then in place. */
  method SortSmaller<T(!new)>(a: array<T>, lo: int, hi: int, nl: int, nr: int, ghost p: T, cmp: Compare<T>)
    requires 0 <= lo <= hi <= a.Length && TotalPreorder(cmp) && ThreeWay(a[..], cmp, lo, hi, nl, nr, p)
    modifies a
    ensures Shuffled(old(a[..]), a[..], lo, hi) && lo < hi - nr <= hi
    ensures Sorted(a[..], cmp, lo, hi - nr) && Below(a[..], cmp, lo, hi - nr, hi)
    decreases hi - lo, 0
  {
    ghost var s1 := a[..];
    if nl > 1 {
      Sort(a, lo, lo + nl, cmp);
    } else {
      ShuffledSame(s1, lo, lo + nl);
    }
    ShuffledPart(s1, a[..], lo, hi, lo, lo + nl);
    LeftSorted(s1, a[..], cmp, lo, hi, nl, nr, p);
  }

  lemma LastOne<T>(s: seq<T>, cmp: Compare<T>, lo: int, k: int, hi: int)
    requires Sorted(s, cmp, lo, k) && Below(s, cmp, lo, k, hi) && hi <= k + 1
    ensures Sorted(s, cmp, lo, hi) && Below(s, cmp, lo, hi, hi)
  {
  }

  lemma JoinLeft<T>(s: seq<T>, cmp: Compare<T>, lo: int, l: int, next: int, hi: int)
    requires Sorted(s, cmp, lo, l) && Below(s, cmp, lo, l, hi) && l <= next <= hi
    requires Sorted(s, cmp, l, next) && Below(s, cmp, l, next, hi)
    ensures Sorted(s, cmp, lo, next) && Below(s, cmp, lo, next, hi)
  {
  }

  /** qsort: the whole array ends up sorted, with the same elements. */
  method Qsort<T(!new)>(a: array<T>, cmp: Compare<T>)
    requires TotalPreorder(cmp)
    modifies a
    ensures forall i, j :: 0 <= i < j < a.Length ==> cmp(a[i], a[j]) <= 0
    ensures multiset(a[..]) == multiset(old(a[..]))
  {
    Sort(a, 0, a.Length, cmp);
    assert Opens(OfShuffle);
    assert a[..] == a[0..a.Length] && old(a[..]) == old(a[0..a.Length]);
    ghost var s := a[..];
    forall i, j | 0 <= i < j < a.Length ensures cmp(a[i], a[j]) <= 0 { assert LeAt(s, cmp, i, j); }
  }
}
