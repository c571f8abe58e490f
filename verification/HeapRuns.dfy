/**
 Whole runs of the allocator: a client that allocates, resizes, writes and releases its buffers in any
 order, while pools are added, on a real heap.
 */
module HeapRuns {
  import opened Arith
  import opened Seal
  import opened HeapLayout
  import opened HeapSteps
  import opened Bget
  import opened HeapBases
  import opened Malloc

  /** What a client can do; it names its buffers by keys of its own. */
  datatype Op =
    | Malloc(key: int, hdr: int, ftr: int, size: int)
    | Calloc(key: int, hdr: int, ftr: int, nmemb: int, size: int)
    | Memalign(key: int, hdr: int, ftr: int, alignment: int, size: int)
    | Realloc(key: int, hdr: int, ftr: int, size: int)
    | Free(key: int)
    | Write(key: int, at: int, value: int)
    | AddPool(buf: int, len: int)

  /** What the calls demand of their sizes. */
  ghost predicate OpOk(op: Op) {
    OpAllowed(op) == true
  }

  ghost predicate OpAllowed(op: Op) {
    match op
    case Malloc(_, hdr, ftr, size) => Extras(hdr, ftr) && Asks(hdr, ftr, size)
    case Calloc(_, hdr, ftr, nmemb, size) =>
      && Extras(hdr, ftr) && 0 <= nmemb < WORD_LIMIT && 0 <= size < WORD_LIMIT
      && (!CallocWraps(hdr, ftr, nmemb, size) ==> Product32(hdr, ftr, nmemb, size) <= MAX_REQUEST)
    case Memalign(_, hdr, ftr, alignment, size) => Extras(hdr, ftr) && AsksAligned(hdr, ftr, alignment, size)
    case Realloc(_, hdr, ftr, size) => Extras(hdr, ftr) && Asks(hdr, ftr, size)
    case _ => true
  }

  /** A buffer that the client holds, and how many bytes it asked for. */
  datatype Buffer = Buffer(ptr: int, want: int)

  /** A state of a run: the heap, the client's buffers, and what they hold. */
  datatype State = State(mem: Memory, blocks: seq<Block>, free: seq<int>, held: map<int, Buffer>,
    data: map<int, seq<int>>)

  /** The client's buffer of a key is live, big enough, and holds what the client knows. */
  ghost predicate HeldOk(live: map<int, seq<int>>, b: Buffer, data: seq<int>) {
    b.ptr - BHEAD in live && live[b.ptr - BHEAD] == data && b.want <= |data|
  }

  ghost predicate Holds(live: map<int, seq<int>>, held: map<int, Buffer>, data: map<int, seq<int>>) {
    data.Keys == held.Keys && forall key: Key :: Opens(key) && key == OfRun ==> HoldsAll(live, held, data)
  }

  ghost predicate HoldsAll(live: map<int, seq<int>>, held: map<int, Buffer>, data: map<int, seq<int>>) {
    && (forall k :: k in held && k in data ==> HeldOk(live, held[k], data[k]))
    && (forall k, l :: k in held && l in held && k != l ==> held[k].ptr != held[l].ptr)
  }

  /** The heap's invariant holds, and the client's buffers are in the heap. */
  ghost predicate Sound(head: int, s: State) {
    IsSound(head, s) == true
  }

  ghost predicate IsSound(head: int, s: State) {
    IsHeap(s.mem, head, s.blocks, s.free) && Holds(LiveMap(s.mem, s.blocks), s.held, s.data)
  }

  // ---------------------------------------------------------------- what a step does

  ghost predicate Same(s: State, t: State) { t.held == s.held && t.data == s.data }

  /** Every key but one keeps its buffer and contents. */
  ghost predicate Others(s: State, t: State, key: int) {
    && s.data.Keys == s.held.Keys && t.data.Keys == t.held.Keys
    && forall seal: Key :: Opens(seal) && seal == OfRun ==> OthersSame(s, t, key)
  }

  ghost predicate OthersSame(s: State, t: State, key: int) {
    && (forall k :: k in s.held && k != key ==> k in t.held && t.held[k] == s.held[k])
    && (forall k :: k in s.data && k != key ==> k in t.data && t.data[k] == s.data[k])
    && (forall k :: k in t.held && k != key ==> k in s.held)
  }

  /** The key has a buffer for n bytes, and every other key has what it had. */
  ghost predicate Gained(s: State, t: State, key: int, n: int) {
    Others(s, t, key) && key in t.held && t.held[key].want == n
  }

  /** The effect of an operation on the client's buffers. A call fails exactly when no block serves it or its size
      wraps. */
  ghost predicate Stepped(op: Op, s: State, t: State)
    requires OpOk(op)
  {
    forall seal: Key :: Opens(seal) && seal == OfRun ==> StepsTo(op, s, t)
  }

  ghost predicate StepsTo(op: Op, s: State, t: State)
    requires OpOk(op)
  {
    match op
    case Malloc(key, hdr, ftr, size) =>
      if key in s.held || Refused(s.blocks, hdr + ftr + size) then Same(s, t) else Gained(s, t, key, hdr + ftr + size)
    case Calloc(key, hdr, ftr, nmemb, size) =>
      if key in s.held || CallocWraps(hdr, ftr, nmemb, size)
        || Exhausted(s.blocks, AtLeastOne(Product32(hdr, ftr, nmemb, size)))
      then Same(s, t)
      else Gained(s, t, key, Product32(hdr, ftr, nmemb, size)) && AllZero(t.data[key])
    case Memalign(key, hdr, ftr, alignment, size) =>
      if key in s.held || !IsPowerOfTwo(alignment) || NoAligned(s.blocks, hdr + ftr + size, alignment) then Same(s, t)
      else Gained(s, t, key, hdr + ftr + size) && AlignedAt(t.held[key].ptr, hdr, alignment)
    case Realloc(key, hdr, ftr, size) =>
      if key !in s.held || Refused(s.blocks, hdr + ftr + size) then Same(s, t)
      else
        && Gained(s, t, key, hdr + ftr + size)
        && hdr + ftr + size <= |t.data[key]| && SamePrefix(s.data[key], t.data[key], hdr + ftr + size)
    case Free(key) => Others(s, t, key) && key !in t.held
    case Write(key, at, value) =>
      if key !in s.held || !(0 <= at < s.held[key].want) then Same(s, t)
      else
        && Others(s, t, key) && t.held == s.held
        && at < |s.data[key]| && t.data[key] == s.data[key][at := value]
    case AddPool(_, _) => Same(s, t)
  }

  /** The step was taken, and the client's buffers are in the heap afterwards. */
  ghost predicate Done(op: Op, s: State, t: State) {
    IsDone(op, s, t) == true
  }

  ghost predicate IsDone(op: Op, s: State, t: State) {
    OpOk(op) && Stepped(op, s, t) && Holds(LiveMap(t.mem, t.blocks), t.held, t.data)
  }

  predicate AllZero(data: seq<int>) { forall i :: 0 <= i < |data| ==> data[i] == 0 }

  // ---------------------------------------------------------------- the client's buffers stay in the heap

  lemma GainKeeps(live: map<int, seq<int>>, live': map<int, seq<int>>, held: map<int, Buffer>, data: map<int, seq<int>>,
                  key: int, p: int, n: int)
    requires Holds(live, held, data) && key !in held && p - BHEAD !in live && p - BHEAD in live'
    requires n <= |live'[p - BHEAD]|
    requires forall a :: a in live ==> a in live' && live'[a] == live[a]
    ensures Holds(live', held[key := Buffer(p, n)], data[key := live'[p - BHEAD]])
  {
    assert Opens(OfRun);
  }

  lemma ChangeKeeps(live: map<int, seq<int>>, live': map<int, seq<int>>, held: map<int, Buffer>,
                    data: map<int, seq<int>>, key: int, p: int, n: int)
    requires Holds(live, held, data) && key in held && p - BHEAD in live' && n <= |live'[p - BHEAD]|
    requires p == held[key].ptr || p - BHEAD !in live
    requires forall a :: a in live && a != held[key].ptr - BHEAD ==> a in live' && live'[a] == live[a]
    ensures Holds(live', held[key := Buffer(p, n)], data[key := live'[p - BHEAD]])
  {
    assert Opens(OfRun);
  }

  lemma DropKeeps(live: map<int, seq<int>>, held: map<int, Buffer>, data: map<int, seq<int>>, key: int)
    requires Holds(live, held, data) && key in held
    ensures Holds(live - {held[key].ptr - BHEAD}, held - {key}, data - {key})
  {
    assert Opens(OfRun);
  }

  /** An operation that keeps every live buffer keeps the client's. */
  lemma AllKept(m: Memory, m': Memory, bs: seq<Block>, cs: seq<Block>)
    requires Shape(bs, |m|) && Shape(cs, |m|) && |m'| == |m| && KeepsLive(m, m', bs, cs, {})
    ensures forall a :: a in LiveMap(m, bs) ==> a in LiveMap(m', cs) && LiveMap(m', cs)[a] == LiveMap(m, bs)[a]
  {
    forall a | a in LiveMap(m, bs) ensures a in LiveMap(m', cs) && LiveMap(m', cs)[a] == LiveMap(m, bs)[a] {
      KeptPayload(m, m', bs, cs, {}, a + BHEAD);
    }
  }

  lemma StillHolds(live: map<int, seq<int>>, live': map<int, seq<int>>, held: map<int, Buffer>,
                   data: map<int, seq<int>>)
    requires Holds(live, held, data) && forall a :: a in live ==> a in live' && live'[a] == live[a]
    ensures Holds(live', held, data)
  {
    assert Opens(OfRun);
  }

  ghost function StateOf(h: Heap, held: map<int, Buffer>, data: map<int, seq<int>>): State
    reads h
  {
    State(h.mem, h.blocks, h.free, held, data)
  }

  /** The state after a call that allocated the buffer p for a key, or none. */
  ghost function After(s: State, m: Memory, bs: seq<Block>, fl: seq<int>, key: int, p: int, n: int): State {
    if p == 0 || p - BHEAD !in LiveMap(m, bs) then State(m, bs, fl, s.held, s.data)
    else State(m, bs, fl, s.held[key := Buffer(p, n)], s.data[key := LiveMap(m, bs)[p - BHEAD]])
  }

  lemma AllocStep(s: State, t: State, key: int, p: int, n: int)
    requires Holds(LiveMap(s.mem, s.blocks), s.held, s.data) && key !in s.held
    requires t == After(s, t.mem, t.blocks, t.free, key, p, n)
    requires if p == 0 then Unchanged(s.mem, s.blocks, t.mem, t.blocks)
      else Allocated(s.mem, s.blocks, t.mem, t.blocks, p, n)
    ensures Holds(LiveMap(t.mem, t.blocks), t.held, t.data)
    ensures if p == 0 then Same(s, t) else Gained(s, t, key, n) && t.held[key].ptr == p
    ensures p != 0 ==> p - BHEAD in LiveMap(t.mem, t.blocks) && t.data[key] == LiveMap(t.mem, t.blocks)[p - BHEAD]
  {
    assert Opens(OfRun);
    if p != 0 { GainKeeps(LiveMap(s.mem, s.blocks), LiveMap(t.mem, t.blocks), s.held, s.data, key, p, n); }
  }

  /** What a malloc call answered and did. */
  ghost predicate Serves(m: Memory, bs: seq<Block>, m': Memory, bs': seq<Block>, p: int, n: nat) {
    ServesOne(m, bs, m', bs', p, n) == true
  }

  ghost predicate ServesOne(m: Memory, bs: seq<Block>, m': Memory, bs': seq<Block>, p: int, n: nat) {
    && (p == 0 <==> Refused(bs, n))
    && (if p == 0 then Unchanged(m, bs, m', bs') else Allocated(m, bs, m', bs', p, n))
  }

  method CallMalloc(h: Heap, op: Op, n: nat) returns (p: int)
    requires h.Valid() && op.Malloc? && OpOk(op) && n == op.hdr + op.ftr + op.size
    modifies h
    ensures h.Valid() && |h.mem| == |old(h.mem)| && Ends(h.blocks) == Ends(old(h.blocks))
    ensures Serves(old(h.mem), old(h.blocks), h.mem, h.blocks, p, n)
  {
    p := RawMalloc(h, op.hdr, op.ftr, op.size);
  }

  lemma Mallocs(op: Op, s: State, t: State, p: int, n: nat)
    requires op.Malloc? && OpOk(op) && Holds(LiveMap(s.mem, s.blocks), s.held, s.data) && op.key !in s.held
    requires n == op.hdr + op.ftr + op.size
    requires t == After(s, t.mem, t.blocks, t.free, op.key, p, n) && Serves(s.mem, s.blocks, t.mem, t.blocks, p, n)
    ensures Done(op, s, t)
    ensures t.held == if p == 0 then s.held else s.held[op.key := Buffer(p, n)]
  {
    AllocStep(s, t, op.key, p, n);
  }

  lemma Callocs(op: Op, s: State, m: Memory, bs: seq<Block>, t: State, p: int, n: int)
    requires op.Calloc? && OpOk(op) && Holds(LiveMap(m, bs), s.held, s.data) && op.key !in s.held
    requires n == Product32(op.hdr, op.ftr, op.nmemb, op.size)
    requires s.mem == m && s.blocks == bs && t == After(s, t.mem, t.blocks, t.free, op.key, p, n)
    requires p == 0 <==> CallocWraps(op.hdr, op.ftr, op.nmemb, op.size) || Exhausted(bs, AtLeastOne(n))
    requires if p == 0 then Unchanged(m, bs, t.mem, t.blocks) else Allocated(m, bs, t.mem, t.blocks, p, n)
    requires p != 0 ==> p - BHEAD in LiveMap(t.mem, t.blocks) && AllZero(LiveMap(t.mem, t.blocks)[p - BHEAD])
    ensures Done(op, s, t)
    ensures t.held == if p == 0 then s.held else s.held[op.key := Buffer(p, n)]
  {
    AllocStep(s, t, op.key, p, n);
  }

  /** What a memalign call answered and did. */
  ghost predicate Aligns(op: Op, m: Memory, bs: seq<Block>, m': Memory, bs': seq<Block>, p: int, n: int)
    requires op.Memalign? && OpOk(op) && n == op.hdr + op.ftr + op.size
  {
    AlignsTo(op, m, bs, m', bs', p, n) == true
  }

  ghost predicate AlignsTo(op: Op, m: Memory, bs: seq<Block>, m': Memory, bs': seq<Block>, p: int, n: int)
    requires op.Memalign? && OpOk(op) && n == op.hdr + op.ftr + op.size
  {
    && (p == 0 <==> !IsPowerOfTwo(op.alignment) || NoAligned(bs, n, op.alignment))
    && (if p == 0 then Unchanged(m, bs, m', bs')
      else Allocated(m, bs, m', bs', p, n) && AlignedAt(p, op.hdr, op.alignment))
  }

  method CallMemalign(h: Heap, op: Op, n: int) returns (p: int)
    requires h.Valid() && op.Memalign? && OpOk(op) && n == op.hdr + op.ftr + op.size
    modifies h
    ensures h.Valid() && |h.mem| == |old(h.mem)| && Ends(h.blocks) == Ends(old(h.blocks))
    ensures Aligns(op, old(h.mem), old(h.blocks), h.mem, h.blocks, p, n)
  {
    p := RawMemalign(h, op.hdr, op.ftr, op.alignment, op.size);
  }

  lemma Memaligns(op: Op, s: State, t: State, p: int, n: int)
    requires op.Memalign? && OpOk(op) && Holds(LiveMap(s.mem, s.blocks), s.held, s.data) && op.key !in s.held
    requires n == op.hdr + op.ftr + op.size
    requires t == After(s, t.mem, t.blocks, t.free, op.key, p, n) && Aligns(op, s.mem, s.blocks, t.mem, t.blocks, p, n)
    ensures Done(op, s, t)
    ensures t.held == if p == 0 then s.held else s.held[op.key := Buffer(p, n)]
  {
    AllocStep(s, t, op.key, p, n);
  }

  /** A client that has no buffer for a key, or has one already, calls nothing. */
  lemma NothingDone(op: Op, s: State)
    requires OpOk(op) && !op.AddPool? && Holds(LiveMap(s.mem, s.blocks), s.held, s.data)
    requires match op {
      case Malloc(key, _, _, _) => key in s.held
      case Calloc(key, _, _, _, _) => key in s.held
      case Memalign(key, _, _, _, _) => key in s.held
      case Realloc(key, _, _, _) => key !in s.held
      case Free(key) => key !in s.held
      case Write(key, at, _) => key !in s.held || !(0 <= at < s.held[key].want)
      case AddPool(_, _) => true
    }
    ensures Done(op, s, s)
  {
  }

  method DoMalloc(h: Heap, op: Op, held: map<int, Buffer>, ghost s: State)
    returns (held': map<int, Buffer>, ghost t: State)
    requires op.Malloc? && OpOk(op) && h.Valid() && s == StateOf(h, held, s.data)
    requires Holds(LiveMap(h.mem, h.blocks), held, s.data)
    modifies h
    ensures h.Valid() && |h.mem| == |old(h.mem)| && Ends(h.blocks) == Ends(old(h.blocks))
    ensures t == StateOf(h, held', t.data) && Done(op, s, t)
  {
    held', t := held, s;
    if op.key in held {
      NothingDone(op, s);
    } else {
      var n := op.hdr + op.ftr + op.size;
      var p := CallMalloc(h, op, n);
      t := After(s, h.mem, h.blocks, h.free, op.key, p, n);
      Mallocs(op, s, t, p, n);
      if p != 0 { held' := held[op.key := Buffer(p, n)]; }
    }
  }

  method DoCalloc(h: Heap, op: Op, held: map<int, Buffer>, ghost s: State)
    returns (held': map<int, Buffer>, ghost t: State)
    requires op.Calloc? && OpOk(op) && h.Valid() && s == StateOf(h, held, s.data)
    requires Holds(LiveMap(h.mem, h.blocks), held, s.data)
    modifies h
    ensures h.Valid() && |h.mem| == |old(h.mem)| && Ends(h.blocks) == Ends(old(h.blocks))
    ensures t == StateOf(h, held', t.data) && Done(op, s, t)
  {
    held', t := held, s;
    if op.key in held { NothingDone(op, s); return; }
    var n := Product32(op.hdr, op.ftr, op.nmemb, op.size);
    var p := RawCalloc(h, op.hdr, op.ftr, op.nmemb, op.size);
    t := After(s, h.mem, h.blocks, h.free, op.key, p, n);
    if p != 0 { LiveAt(h.mem, h.blocks, p); }
    Callocs(op, s, old(h.mem), old(h.blocks), t, p, n);
    if p != 0 { held' := held[op.key := Buffer(p, n)]; }
  }

  method DoMemalign(h: Heap, op: Op, held: map<int, Buffer>, ghost s: State)
    returns (held': map<int, Buffer>, ghost t: State)
    requires op.Memalign? && OpOk(op) && h.Valid() && s == StateOf(h, held, s.data)
    requires Holds(LiveMap(h.mem, h.blocks), held, s.data)
    modifies h
    ensures h.Valid() && |h.mem| == |old(h.mem)| && Ends(h.blocks) == Ends(old(h.blocks))
    ensures t == StateOf(h, held', t.data) && Done(op, s, t)
  {
    held', t := held, s;
    if op.key in held {
      NothingDone(op, s);
    } else {
      var n := op.hdr + op.ftr + op.size;
      var p := CallMemalign(h, op, n);
      t := After(s, h.mem, h.blocks, h.free, op.key, p, n);
      Memaligns(op, s, t, p, n);
      if p != 0 { held' := held[op.key := Buffer(p, n)]; }
    }
  }

  lemma ReallocStep(s: State, t: State, key: int, p: int, n: int)
    requires Holds(LiveMap(s.mem, s.blocks), s.held, s.data) && key in s.held
    requires t == After(s, t.mem, t.blocks, t.free, key, p, n)
    requires if p == 0 then Unchanged(s.mem, s.blocks, t.mem, t.blocks)
             else Reallocated(s.mem, s.blocks, t.mem, t.blocks, s.held[key].ptr, p, n)
    ensures Holds(LiveMap(t.mem, t.blocks), t.held, t.data)
    ensures if p == 0 then Same(s, t)
      else Gained(s, t, key, n) && n <= |t.data[key]| && SamePrefix(s.data[key], t.data[key], n)
    ensures p != 0 ==> p - BHEAD in LiveMap(t.mem, t.blocks)
  {
    assert Opens(OfRun);
    if p != 0 {
      assert HeldOk(LiveMap(s.mem, s.blocks), s.held[key], s.data[key]);
      ChangeKeeps(LiveMap(s.mem, s.blocks), LiveMap(t.mem, t.blocks), s.held, s.data, key, p, n);
    }
  }

  lemma Reallocs(op: Op, s: State, m: Memory, bs: seq<Block>, t: State, ptr: int, p: int, n: int)
    requires op.Realloc? && OpOk(op) && Holds(LiveMap(m, bs), s.held, s.data) && op.key in s.held
    requires n == op.hdr + op.ftr + op.size
    requires s.mem == m && s.blocks == bs && s.held[op.key].ptr == ptr
    requires t == After(s, t.mem, t.blocks, t.free, op.key, p, n)
    requires p == 0 <==> Refused(bs, n)
    requires if p == 0 then Unchanged(m, bs, t.mem, t.blocks) else Reallocated(m, bs, t.mem, t.blocks, ptr, p, n)
    ensures Done(op, s, t)
    ensures t.held == if p == 0 then s.held else s.held[op.key := Buffer(p, n)]
  {
    ReallocStep(s, t, op.key, p, n);
  }

  /** realloc of a buffer. */
  method Resize(h: Heap, ptr: int, hdr: int, ftr: int, size: int, ghost n: int) returns (p: int)
    requires h.Valid() && Extras(hdr, ftr) && Asks(hdr, ftr, size) && ptr != 0 && IsLive(h.blocks, ptr)
    requires n == hdr + ftr + size
    modifies h
    ensures h.Valid() && |h.mem| == |old(h.mem)| && Ends(h.blocks) == Ends(old(h.blocks))
    ensures p == 0 <==> Refused(old(h.blocks), n)
    ensures if p == 0 then Unchanged(old(h.mem), old(h.blocks), h.mem, h.blocks)
            else Reallocated(old(h.mem), old(h.blocks), h.mem, h.blocks, ptr, p, n)
  {
    p := RawRealloc(h, ptr, hdr, ftr, size);
  }

  method DoRealloc(h: Heap, op: Op, held: map<int, Buffer>, ghost s: State)
    returns (held': map<int, Buffer>, ghost t: State)
    requires op.Realloc? && OpOk(op) && h.Valid() && s == StateOf(h, held, s.data)
    requires Holds(LiveMap(h.mem, h.blocks), held, s.data)
    modifies h
    ensures h.Valid() && |h.mem| == |old(h.mem)| && Ends(h.blocks) == Ends(old(h.blocks))
    ensures t == StateOf(h, held', t.data) && Done(op, s, t)
  {
    held', t := held, s;
    if op.key !in held { NothingDone(op, s); return; }
    var n := op.hdr + op.ftr + op.size;
    HeldIsLive(h.mem, h.head, h.blocks, h.free, held, s.data, op.key);
    var ptr := held[op.key].ptr;
    var p := Resize(h, ptr, op.hdr, op.ftr, op.size, n);
    t := After(s, h.mem, h.blocks, h.free, op.key, p, n);
    Reallocs(op, s, old(h.mem), old(h.blocks), t, ptr, p, n);
    if p != 0 { held' := held[op.key := Buffer(p, n)]; }
  }

  method DoFree(h: Heap, op: Op, held: map<int, Buffer>, ghost s: State)
    returns (held': map<int, Buffer>, ghost t: State)
    requires op.Free? && h.Valid() && s == StateOf(h, held, s.data) && Holds(LiveMap(h.mem, h.blocks), held, s.data)
    modifies h
    ensures h.Valid() && |h.mem| == |old(h.mem)| && Ends(h.blocks) == Ends(old(h.blocks))
    ensures t == StateOf(h, held', t.data) && Done(op, s, t)
  {
    held', t := held, s;
    if op.key !in held { NothingDone(op, s); return; }
    HeldIsLive(h.mem, h.head, h.blocks, h.free, held, s.data, op.key);
    RawFree(h, held[op.key].ptr);
    held' := held - {op.key};
    t := StateOf(h, held', s.data - {op.key});
    Frees(op, s, t);
  }

  lemma Frees(op: Op, s: State, t: State)
    requires op.Free? && Holds(LiveMap(s.mem, s.blocks), s.held, s.data) && op.key in s.held
    requires t.held == s.held - {op.key} && t.data == s.data - {op.key}
    requires LiveMap(t.mem, t.blocks) == LiveMap(s.mem, s.blocks) - {s.held[op.key].ptr - BHEAD}
    ensures Done(op, s, t)
  {
    DropKeeps(LiveMap(s.mem, s.blocks), s.held, s.data, op.key);
  }

  /** A client's pointer is that of a live buffer. */
  lemma HeldIsLive(m: Memory, head: int, bs: seq<Block>, fl: seq<int>, held: map<int, Buffer>, data: map<int, seq<int>>,
                   key: int)
    requires IsHeap(m, head, bs, fl) && Holds(LiveMap(m, bs), held, data) && key in held
    ensures IsLive(bs, held[key].ptr) && held[key].ptr != 0
    ensures Payload(m, bs, held[key].ptr) == data[key] && held[key].want <= |data[key]|
  {
    assert Opens(OfRun);
    assert HeldOk(LiveMap(m, bs), held[key], data[key]);
    NullIsNotLive(m, head, bs, fl);
  }

  method DoWrite(h: Heap, op: Op, held: map<int, Buffer>, ghost s: State)
    returns (ghost t: State)
    requires op.Write? && h.Valid() && s == StateOf(h, held, s.data) && Holds(LiveMap(h.mem, h.blocks), held, s.data)
    modifies h
    ensures h.Valid() && |h.mem| == |old(h.mem)| && h.blocks == old(h.blocks)
    ensures t == StateOf(h, held, t.data) && Done(op, s, t)
  {
    t := s;
    if op.key !in held || !(0 <= op.at < held[op.key].want) { NothingDone(op, s); return; }
    HeldIsLive(h.mem, h.head, h.blocks, h.free, held, s.data, op.key);
    ghost var m, bs, ptr := h.mem, h.blocks, held[op.key].ptr;
    Written(m, h.head, bs, h.free, ptr, op.at, op.value);
    h.mem := h.mem[held[op.key].ptr + op.at := op.value];
    t := StateOf(h, held, s.data[op.key := s.data[op.key][op.at := op.value]]);
    Writes(op, s, t);
  }

  lemma Writes(op: Op, s: State, t: State)
    requires op.Write? && Holds(LiveMap(s.mem, s.blocks), s.held, s.data) && op.key in s.held
    requires 0 <= op.at < s.held[op.key].want <= |s.data[op.key]|
    requires t.held == s.held && t.data == s.data[op.key := s.data[op.key][op.at := op.value]]
    requires LiveMap(t.mem, t.blocks) == LiveMap(s.mem, s.blocks)[s.held[op.key].ptr - BHEAD := t.data[op.key]]
    ensures Done(op, s, t)
  {
    var b := s.held[op.key];
    ChangeKeeps(LiveMap(s.mem, s.blocks), LiveMap(t.mem, t.blocks), s.held, s.data, op.key, b.ptr, b.want);
    assert s.held[op.key := Buffer(b.ptr, b.want)] == s.held;
  }

  /** One cell of a buffer is written. */
  lemma Written(m: Memory, head: int, bs: seq<Block>, fl: seq<int>, ptr: int, at: int, value: int)
    requires IsHeap(m, head, bs, fl) && IsLive(bs, ptr) && 0 <= at < |Payload(m, bs, ptr)|
    ensures 0 <= ptr + at < |m|
    ensures var m' := m[ptr + at := value];
      && IsHeap(m', head, bs, fl)
      && LiveMap(m', bs) == LiveMap(m, bs)[ptr - BHEAD := Payload(m, bs, ptr)[at := value]]
  {
    var k := IndexOf(bs, ptr);
    assert Sized(bs[k], |m|);
    var m' := m[ptr + at := value];
    PayloadWrite(m, m', head, bs, fl, k);
    assert Payload(m', bs, ptr) == Payload(m, bs, ptr)[at := value];
    LiveMapStep(m, m', bs, bs, {ptr - BHEAD}, {ptr - BHEAD});
    LiveAt(m', bs, ptr);
    LiveAt(m, bs, ptr);
  }

  // ---------------------------------------------------------------- pools

  /** Memory from buf on has room for a pool beside the pools that end with the given sentinels. */
  ghost predicate RoomForPool(top: int, head: int, ends: set<Block>, buf: int, len: int) {
    && 0 <= buf && buf % QUANTUM == 0 && len % QUANTUM == 0
    && MIN_BLOCK + BHEAD <= len <= MAX_POOL && buf + len <= top
    && (head + 16 <= buf || buf + len <= head)
    && forall e :: e in ends ==> e.Limit() <= buf || buf + len <= e.pool
  }

  lemma RoomIsFit(m: Memory, head: int, bs: seq<Block>, buf: int, len: int)
    requires Shape(bs, |m|) && RoomForPool(|m|, head, Ends(bs), buf, len)
    ensures PoolFits(m, head, bs, buf, len)
  {
    forall i | 0 <= i < |bs| ensures bs[i].Limit() <= buf || buf + len <= bs[i].at {
      var e := EndOf(bs, |m|, i);
    }
  }

  function Rounded(len: int): int { len / QUANTUM * QUANTUM }

  predicate PoolsApart(a: Op, b: Op)
    requires a.AddPool? && b.AddPool?
  {
    a.buf + Rounded(a.len) <= b.buf || b.buf + Rounded(b.len) <= a.buf
  }

  /** From operation n on, every pool to be added has room beside the heap's pools and the others to be added. */
  ghost predicate PoolsOk(top: int, head: int, ends: set<Block>, ops: seq<Op>, n: nat) {
    && (forall i :: n <= i < |ops| && ops[i].AddPool? ==> RoomForPool(top, head, ends, ops[i].buf, Rounded(ops[i].len)))
    && (forall i, j :: n <= i < j < |ops| && ops[i].AddPool? && ops[j].AddPool? ==> PoolsApart(ops[i], ops[j]))
  }

  ghost function EndsAfter(ends: set<Block>, op: Op): set<Block> {
    if op.AddPool? then ends + {NewPool(op.buf, Rounded(op.len))[1]} else ends
  }

  lemma PoolsOkNext(top: int, head: int, ends: set<Block>, ops: seq<Op>, n: nat)
    requires n < |ops| && PoolsOk(top, head, ends, ops, n)
    ensures PoolsOk(top, head, EndsAfter(ends, ops[n]), ops, n + 1)
  {
    forall i | n + 1 <= i < |ops| && ops[i].AddPool?
      ensures RoomForPool(top, head, EndsAfter(ends, ops[n]), ops[i].buf, Rounded(ops[i].len))
    {
      if ops[n].AddPool? { assert PoolsApart(ops[n], ops[i]); }
    }
  }

  method DoAddPool(h: Heap, op: Op, held: map<int, Buffer>, ghost s: State) returns (ghost t: State)
    requires op.AddPool? && h.Valid() && s == StateOf(h, held, s.data) && Holds(LiveMap(h.mem, h.blocks), held, s.data)
    requires RoomForPool(|h.mem|, h.head, Ends(h.blocks), op.buf, Rounded(op.len))
    modifies h
    ensures h.Valid() && |h.mem| == |old(h.mem)| && Ends(h.blocks) == EndsAfter(Ends(old(h.blocks)), op)
    ensures t == StateOf(h, held, t.data) && Done(op, s, t)
  {
    RoomIsFit(h.mem, h.head, h.blocks, op.buf, Rounded(op.len));
    PoolBases(h.blocks, op.buf, Rounded(op.len));
    h.Bpool(op.buf, op.len);
    t := StateOf(h, held, s.data);
    Adds(op, s, t);
  }

  lemma Adds(op: Op, s: State, t: State)
    requires op.AddPool? && Holds(LiveMap(s.mem, s.blocks), s.held, s.data) && t.held == s.held && t.data == s.data
    requires Shape(s.blocks, |s.mem|) && Shape(t.blocks, |s.mem|) && |t.mem| == |s.mem|
    requires KeepsLive(s.mem, t.mem, s.blocks, t.blocks, {})
    ensures Done(op, s, t)
  {
    AllKept(s.mem, t.mem, s.blocks, t.blocks);
    StillHolds(LiveMap(s.mem, s.blocks), LiveMap(t.mem, t.blocks), s.held, s.data);
  }

  // ---------------------------------------------------------------- runs

  method Do(h: Heap, op: Op, held: map<int, Buffer>, ghost s: State)
    returns (held': map<int, Buffer>, ghost t: State)
    requires OpOk(op) && h.Valid() && s == StateOf(h, held, s.data) && Holds(LiveMap(h.mem, h.blocks), held, s.data)
    requires op.AddPool? ==> RoomForPool(|h.mem|, h.head, Ends(h.blocks), op.buf, Rounded(op.len))
    modifies h
    ensures h.Valid() && |h.mem| == |old(h.mem)| && Ends(h.blocks) == EndsAfter(Ends(old(h.blocks)), op)
    ensures t == StateOf(h, held', t.data) && Done(op, s, t)
  {
    held', t := held, s;
    match op
    case Malloc(_, _, _, _) => held', t := DoMalloc(h, op, held, s);
    case Calloc(_, _, _, _, _) => held', t := DoCalloc(h, op, held, s);
    case Memalign(_, _, _, _, _) => held', t := DoMemalign(h, op, held, s);
    case Realloc(_, _, _, _) => held', t := DoRealloc(h, op, held, s);
    case Free(_) => held', t := DoFree(h, op, held, s);
    case Write(_, _, _) => t := DoWrite(h, op, held, s);
    case AddPool(_, _) => t := DoAddPool(h, op, held, s);
  }

  /** A run of operations from a client without buffers: states are sound, and each follows from the one before. */
  ghost predicate IsRun(head: int, ops: seq<Op>, run: seq<State>) {
    RunsOn(head, ops, run) == true
  }

  ghost predicate RunsOn(head: int, ops: seq<Op>, run: seq<State>) {
    && |run| == |ops| + 1 && run[0].held == map[] && (forall i :: 0 <= i < |ops| ==> OpOk(ops[i]))
    && (forall i :: 0 <= i < |run| ==> Sound(head, run[i]))
    && (forall i :: 0 <= i < |ops| ==> SteppedAt(ops, run, i))
  }

  ghost predicate SteppedAt(ops: seq<Op>, run: seq<State>, i: int)
    requires 0 <= i < |ops| && i + 1 < |run|
  {
    OpOk(ops[i]) && Stepped(ops[i], run[i], run[i + 1])
  }

  /** Any sequence of operations on any heap is a run. */
  method Run(h: Heap, ops: seq<Op>) returns (held: map<int, Buffer>, ghost run: seq<State>)
    requires h.Valid() && forall i :: 0 <= i < |ops| ==> OpOk(ops[i])
    requires PoolsOk(|h.mem|, h.head, Ends(h.blocks), ops, 0)
    modifies h
    ensures h.Valid() && |h.mem| == |old(h.mem)| && IsRun(h.head, ops, run)
    ensures run[0].mem == old(h.mem) && run[0].blocks == old(h.blocks)
    ensures run[|ops|].mem == h.mem && run[|ops|].blocks == h.blocks && run[|ops|].held == held
  {
    held := map[];
    ghost var s := StateOf(h, held, map[]);
    NothingHeld(LiveMap(h.mem, h.blocks));
    run := [s];
    var n := 0;
    while n < |ops|
      invariant 0 <= n <= |ops| && h.Valid() && |h.mem| == |old(h.mem)|
      invariant |run| == n + 1 && run[n] == s == StateOf(h, held, s.data)
      invariant run[0].held == map[] && run[0].mem == old(h.mem) && run[0].blocks == old(h.blocks)
      invariant forall i :: 0 <= i <= n ==> Sound(h.head, run[i])
      invariant forall i :: 0 <= i < n ==> SteppedAt(ops, run, i)
      invariant PoolsOk(|h.mem|, h.head, Ends(h.blocks), ops, n)
    {
      PoolsOkNext(|h.mem|, h.head, Ends(h.blocks), ops, n);
      assert Sound(h.head, s);
      ghost var t;
      held, t := Do(h, ops[n], held, s);
      RunGrows(h.head, ops, run, n, s, t);
      run := run + [t];
      s := t;
      n := n + 1;
    }
  }

  lemma NothingHeld(live: map<int, seq<int>>)
    ensures Holds(live, map[], map[])
  {
  }

  lemma RunGrows(head: int, ops: seq<Op>, run: seq<State>, n: nat, s: State, t: State)
    requires n < |ops| && |run| == n + 1 && run[n] == s && Done(ops[n], s, t) && IsHeap(t.mem, head, t.blocks, t.free)
    requires (forall i :: 0 <= i <= n ==> Sound(head, run[i])) && forall i :: 0 <= i < n ==> SteppedAt(ops, run, i)
    ensures forall i :: 0 <= i <= n + 1 ==> Sound(head, (run + [t])[i])
    ensures forall i :: 0 <= i < n + 1 ==> SteppedAt(ops, run + [t], i)
  {
    forall i | 0 <= i < n + 1 ensures SteppedAt(ops, run + [t], i) { if i < n { assert SteppedAt(ops, run, i); } }
  }

  // ---------------------------------------------------------------- what holds over every run

  /** In every state of every run the client's buffers are live, as large as was asked for, and inside a pool. */
  lemma RunBuffers(head: int, ops: seq<Op>, run: seq<State>, i: nat, k: int)
    requires IsRun(head, ops, run) && i < |run| && k in run[i].held
    ensures var s := run[i]; var b := s.held[k];
      && IsLive(s.blocks, b.ptr) && b.want <= |Payload(s.mem, s.blocks, b.ptr)|
      && exists e :: e in Ends(s.blocks) && e.pool + BHEAD <= b.ptr && b.ptr + |Payload(s.mem, s.blocks, b.ptr)| <= e.at
  {
    var s := run[i];
    assert Sound(head, s);
    HeldIsLive(s.mem, head, s.blocks, s.free, s.held, s.data, k);
    var n := IndexOf(s.blocks, s.held[k].ptr);
    assert Sized(s.blocks[n], |s.mem|);
    var e := EndOf(s.blocks, |s.mem|, n);
  }

  /** And they do not overlap. */
  lemma RunBuffersApart(head: int, ops: seq<Op>, run: seq<State>, i: nat, k: int, l: int)
    requires IsRun(head, ops, run) && i < |run| && k in run[i].held && l in run[i].held && k != l
    ensures var s := run[i];
      && IsLive(s.blocks, s.held[k].ptr) && IsLive(s.blocks, s.held[l].ptr)
      && (s.held[k].ptr + |Payload(s.mem, s.blocks, s.held[k].ptr)| <= s.held[l].ptr
          || s.held[l].ptr + |Payload(s.mem, s.blocks, s.held[l].ptr)| <= s.held[k].ptr)
  {
    var s := run[i];
    assert Sound(head, s);
    HeldIsLive(s.mem, head, s.blocks, s.free, s.held, s.data, k);
    HeldIsLive(s.mem, head, s.blocks, s.free, s.held, s.data, l);
    assert Opens(OfRun);
    LiveBuffersApart(s.mem, head, s.blocks, s.free, s.held[k].ptr, s.held[l].ptr);
  }

  /** The operation is about the client's buffer k. */
  predicate Names(op: Op, k: int) { !op.AddPool? && op.key == k }

  /** A step leaves the buffers alone that it does not name. */
  lemma KeptStep(op: Op, s: State, t: State, k: int)
    requires OpOk(op) && Stepped(op, s, t) && !Names(op, k) && k in s.held && k in s.data
    ensures k in t.held && k in t.data && t.held[k] == s.held[k] && t.data[k] == s.data[k]
  {
    assert Opens(OfRun);
    if !Same(s, t) { assert Others(s, t, op.key); }
  }

  lemma StepOf(head: int, ops: seq<Op>, run: seq<State>, i: nat)
    requires IsRun(head, ops, run) && i < |ops|
    ensures OpOk(ops[i]) && Stepped(ops[i], run[i], run[i + 1])
  {
    assert SteppedAt(ops, run, i);
  }

  /** Buffer k is as it was after one step of the run. */
  ghost predicate KeptAt(run: seq<State>, n: nat, k: int)
    requires n + 1 < |run|
  {
    k in run[n].held && k in run[n].data ==>
      k in run[n + 1].held && k in run[n + 1].data && run[n + 1].held[k] == run[n].held[k]
        && run[n + 1].data[k] == run[n].data[k]
  }

  lemma {:induction false} KeptOver(run: seq<State>, i: nat, j: nat, k: int)
    requires i <= j < |run| && k in run[i].held && k in run[i].data && forall n: nat :: i <= n < j ==> KeptAt(run, n, k)
    ensures k in run[j].held && k in run[j].data && run[j].held[k] == run[i].held[k] && run[j].data[k] == run[i].data[k]
    decreases j - i
  {
    if i < j {
      KeptOver(run, i, j - 1, k);
      assert KeptAt(run, j - 1, k);
    }
  }

  /** Over any stretch of any run, a buffer that no operation names keeps its place and its bytes in memory, whatever
      else is allocated, moved, written, released or added. */
  lemma RunKeepsBytes(head: int, ops: seq<Op>, run: seq<State>, i: nat, j: nat, k: int)
    requires IsRun(head, ops, run) && i <= j < |run| && k in run[i].held
    requires forall n :: i <= n < j ==> !Names(ops[n], k)
    ensures k in run[j].held && run[j].held[k] == run[i].held[k]
    ensures var p := run[i].held[k].ptr;
      && IsLive(run[i].blocks, p) && IsLive(run[j].blocks, p)
      && Payload(run[j].mem, run[j].blocks, p) == Payload(run[i].mem, run[i].blocks, p)
  {
    assert Sound(head, run[i]) && Sound(head, run[j]);
    HeldIsLive(run[i].mem, head, run[i].blocks, run[i].free, run[i].held, run[i].data, k);
    forall n: nat | i <= n < j ensures KeptAt(run, n, k) {
      StepOf(head, ops, run, n);
      if k in run[n].held && k in run[n].data { KeptStep(ops[n], run[n], run[n + 1], k); }
    }
    KeptOver(run, i, j, k);
    HeldIsLive(run[j].mem, head, run[j].blocks, run[j].free, run[j].held, run[j].data, k);
  }

  /** A resized buffer starts with the bytes it had, as far as both go. */
  lemma RunResizes(head: int, ops: seq<Op>, run: seq<State>, i: nat)
    requires IsRun(head, ops, run) && i < |ops| && ops[i].Realloc? && ops[i].key in run[i].held
    requires !Refused(run[i].blocks, ops[i].hdr + ops[i].ftr + ops[i].size)
    ensures var k, n := ops[i].key, ops[i].hdr + ops[i].ftr + ops[i].size; var s, t := run[i], run[i + 1];
      && k in t.held && IsLive(s.blocks, s.held[k].ptr) && IsLive(t.blocks, t.held[k].ptr)
      && n <= |Payload(t.mem, t.blocks, t.held[k].ptr)|
      && SamePrefix(Payload(s.mem, s.blocks, s.held[k].ptr), Payload(t.mem, t.blocks, t.held[k].ptr), n)
  {
    var k, s, t := ops[i].key, run[i], run[i + 1];
    assert Sound(head, s) && Sound(head, t) && SteppedAt(ops, run, i);
    assert Opens(OfRun);
    HeldIsLive(s.mem, head, s.blocks, s.free, s.held, s.data, k);
    HeldIsLive(t.mem, head, t.blocks, t.free, t.held, t.data, k);
  }
}
