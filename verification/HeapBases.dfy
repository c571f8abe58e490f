/** The pools of a heap: which addresses start one, and that only adding a pool changes them. */
module HeapBases {
  import opened HeapLayout
  import opened HeapSteps
  import opened Bget

  /** The pools' addresses, in the order in which they were added. */
  ghost function Bases(bs: seq<Block>): seq<int> {
    if bs == [] then []
    else
      var b := bs[|bs| - 1];
      Bases(bs[..|bs| - 1]) + (if b.at == b.pool then [b.at] else [])
  }

  lemma {:induction false} BasesSplit(a: seq<Block>, b: seq<Block>)
    ensures Bases(a + b) == Bases(a) + Bases(b)
  {
    if b == [] {
      assert a + b == a;
    } else {
      var n := |b| - 1;
      assert (a + b)[..|a + b| - 1] == a + b[..n];
      BasesSplit(a, b[..n]);
    }
  }

  /** Of a run of neighbours only the first can start a pool. */
  lemma {:induction false} RunBases(run: seq<Block>, top: int)
    requires |run| > 0
    requires forall n :: 0 <= n < |run| ==> Sized(run[n], top) && !run[n].kind.End? && run[n].pool == run[0].pool
    requires forall n :: 0 < n < |run| ==> LinkedAt(run, n)
    ensures Bases(run) == if run[0].at == run[0].pool then [run[0].at] else []
  {
    if |run| == 1 {
      assert run[..0] == [];
    } else {
      var n := |run| - 1;
      var init := run[..n];
      forall k | 0 < k < |init| ensures LinkedAt(init, k) { assert LinkedAt(run, k); }
      RunBases(init, top);
      InsideRun(run, top, n);
      assert run[0].Limit() <= run[n].at && Sized(run[0], top);
    }
  }

  lemma OldRunBases(bs: seq<Block>, top: int, i: int, j: int)
    requires Shape(bs, top) && 0 <= i < j < |bs| && forall k :: i <= k < j ==> !bs[k].kind.End?
    ensures Bases(bs[i..j]) == if bs[i].at == bs[i].pool then [bs[i].at] else []
  {
    var run := bs[i..j];
    forall n | 0 <= n < |run| ensures Sized(run[n], top) && !run[n].kind.End? && run[n].pool == run[0].pool {
      RunIsOrdered(bs, top, i, i + n);
    }
    forall n | 0 < n < |run| ensures LinkedAt(run, n) { assert LinkedAt(bs, i + n); }
    RunBases(run, top);
  }

  /** Operations inside the pools leave the pools' starts alone. */
  lemma BasesRecut(bs: seq<Block>, top: int, i: int, j: int, mid: seq<Block>)
    requires Shape(bs, top) && Fits(bs, i, j, mid, top)
    ensures Bases(Recut(bs, i, j, mid)) == Bases(bs)
  {
    OldRunBases(bs, top, i, j);
    RunBases(mid, top);
    BasesReplaced(bs[..i], bs[i..j], mid, bs[j..]);
    RecutParts(bs, i, j, mid);
  }

  lemma BasesReplaced(pre: seq<Block>, run: seq<Block>, mid: seq<Block>, post: seq<Block>)
    requires Bases(run) == Bases(mid)
    ensures Bases(pre + (run + post)) == Bases(pre + (mid + post))
  {
    BasesSplit(pre, run + post);
    BasesSplit(run, post);
    BasesSplit(pre, mid + post);
    BasesSplit(mid, post);
  }

  /** The sentinels; each says where its pool starts and ends. */
  ghost function Ends(bs: seq<Block>): set<Block> {
    set i | 0 <= i < |bs| && bs[i].kind.End? :: bs[i]
  }

  lemma EndsSplit(a: seq<Block>, b: seq<Block>)
    ensures Ends(a + b) == Ends(a) + Ends(b)
  {
    forall e | e in Ends(a) + Ends(b) ensures e in Ends(a + b) {
      if e in Ends(a) {
        var i :| 0 <= i < |a| && a[i].kind.End? && a[i] == e;
        assert (a + b)[i] == e;
      } else {
        var i :| 0 <= i < |b| && b[i].kind.End? && b[i] == e;
        assert (a + b)[|a| + i] == e;
      }
    }
  }

  /** Every block lies in the pool of a sentinel. */
  lemma {:induction false} EndOf(bs: seq<Block>, top: int, i: int) returns (e: Block)
    requires Shape(bs, top) && 0 <= i < |bs|
    ensures e in Ends(bs) && e.pool == bs[i].pool <= bs[i].at && bs[i].Limit() <= e.Limit()
    ensures (!bs[i].kind.End? ==> bs[i].Limit() <= e.at)
    decreases |bs| - i
  {
    assert Sized(bs[i], top);
    if bs[i].kind.End? {
      e := bs[i];
    } else {
      assert LinkedAt(bs, i + 1) && Sized(bs[i + 1], top);
      e := EndOf(bs, top, i + 1);
    }
  }

  /** The pools' lengths, in the order in which they were added. */
  ghost function Lengths(bs: seq<Block>): seq<int> {
    if bs == [] then []
    else
      var b := bs[|bs| - 1];
      Lengths(bs[..|bs| - 1]) + (if b.kind.End? then [b.Limit() - b.pool] else [])
  }

  lemma {:induction false} LengthsSplit(a: seq<Block>, b: seq<Block>)
    ensures Lengths(a + b) == Lengths(a) + Lengths(b)
  {
    if b == [] {
      assert a + b == a;
    } else {
      var n := |b| - 1;
      assert (a + b)[..|a + b| - 1] == a + b[..n];
      LengthsSplit(a, b[..n]);
    }
  }

  /** Neither the pools' starts nor their ends have changed. */
  ghost predicate SamePools(bs: seq<Block>, cs: seq<Block>) {
    Bases(cs) == Bases(bs) && Ends(cs) == Ends(bs) && Lengths(cs) == Lengths(bs)
  }

  lemma SamePoolsRecut(bs: seq<Block>, top: int, i: int, j: int, mid: seq<Block>)
    requires Shape(bs, top) && Fits(bs, i, j, mid, top)
    ensures SamePools(bs, Recut(bs, i, j, mid))
  {
    BasesRecut(bs, top, i, j, mid);
    EndsRecut(bs, top, i, j, mid);
  }

  lemma EndsRecut(bs: seq<Block>, top: int, i: int, j: int, mid: seq<Block>)
    requires Fits(bs, i, j, mid, top)
    ensures Ends(Recut(bs, i, j, mid)) == Ends(bs) && Lengths(Recut(bs, i, j, mid)) == Lengths(bs)
  {
    RecutParts(bs, i, j, mid);
    NoEnds(bs[i..j]);
    NoEnds(mid);
    EndsReplaced(bs[..i], bs[i..j], mid, bs[j..]);
  }

  lemma {:induction false} NoEnds(run: seq<Block>)
    requires forall k :: 0 <= k < |run| ==> !run[k].kind.End?
    ensures Ends(run) == {} && Lengths(run) == []
  {
    if run != [] { NoEnds(run[..|run| - 1]); }
  }

  lemma EndsReplaced(pre: seq<Block>, run: seq<Block>, mid: seq<Block>, post: seq<Block>)
    requires Ends(run) == Ends(mid) && Lengths(run) == Lengths(mid)
    ensures Ends(pre + (run + post)) == Ends(pre + (mid + post))
    ensures Lengths(pre + (run + post)) == Lengths(pre + (mid + post))
  {
    LengthsSplit(pre, run + post);
    LengthsSplit(run, post);
    LengthsSplit(pre, mid + post);
    LengthsSplit(mid, post);
    EndsSplit(pre, run + post);
    EndsSplit(run, post);
    EndsSplit(pre, mid + post);
    EndsSplit(mid, post);
  }

  lemma FrontCutPools(bs: seq<Block>, cs: seq<Block>, top: int, k: int, n: int)
    requires Shape(bs, top) && 0 <= k < |bs| - 1 && Trimmable(bs[k], n)
    requires cs == Recut(bs, RunStart(bs, k), k + 1, FrontCut(bs, k, n))
    ensures SamePools(bs, cs)
  {
    FrontCutFits(bs, top, k, n);
    SamePoolsRecut(bs, top, RunStart(bs, k), k + 1, FrontCut(bs, k, n));
  }

  lemma AfterTrimPools(bs: seq<Block>, top: int, k: int, n: int)
    requires Shape(bs, top) && 0 <= k < |bs| - 1 && (bs[k].size - n >= MIN_BLOCK ==> Trimmable(bs[k], n))
    ensures SamePools(bs, AfterTrim(bs, k, n))
  {
    if bs[k].size - n >= MIN_BLOCK {
      BackCutFits(bs, top, k, n);
      SamePoolsRecut(bs, top, k, RunEnd(bs, k), BackCut(bs, k, n));
    }
  }

  lemma TakeBases(m: Memory, head: int, bs: seq<Block>, fl: seq<int>, k: int, n: int)
    requires IsHeap(m, head, bs, fl) && 0 <= k < |bs| && bs[k].kind.Free? && n % QUANTUM == 0 && MIN_BLOCK <= n
    ensures SamePools(bs, Recut(bs, k, k + 1, TakeFrom(bs[k], n)))
  {
    HasNext(m, head, bs, fl, k);
    if bs[k].size - n > MIN_BLOCK {
      SplitFits(bs, |m|, k, n);
    } else {
      if k > 0 { assert LinkedAt(bs, k); }
      assert Fits(bs, k, k + 1, [bs[k].(kind := Used)], |m|);
    }
    SamePoolsRecut(bs, |m|, k, k + 1, TakeFrom(bs[k], n));
  }

  lemma ReleaseBases(bs: seq<Block>, top: int, k: int)
    requires Shape(bs, top) && 0 <= k < |bs| && bs[k].kind.Used?
    ensures SamePools(bs, Released(bs, k))
  {
    ReleasedFits(bs, top, k);
    SamePoolsRecut(bs, top, RunStart(bs, k), RunEnd(bs, k), [Joined(bs, k)]);
  }

  lemma PoolBases(bs: seq<Block>, buf: int, len: int)
    requires MIN_BLOCK + BHEAD <= len
    ensures Bases(bs + NewPool(buf, len)) == Bases(bs) + [buf] && Lengths(bs + NewPool(buf, len)) == Lengths(bs) + [len]
    ensures Ends(bs + NewPool(buf, len)) == Ends(bs) + {NewPool(buf, len)[1]}
  {
    var np := NewPool(buf, len);
    BasesSplit(bs, np);
    EndsSplit(bs, np);
    LengthsSplit(bs, np);
    LengthsSplit([np[0]], [np[1]]);
    assert np == [np[0]] + [np[1]];
    BasesSplit([np[0]], [np[1]]);
    assert [np[0]][..0] == [] && [np[1]][..0] == [];
  }
}
