/**
 The thread pool of kernel/thread.c as a protocol between cores.  Each core goes through its own
 steps, in any interleaving with the others: taking the global lock, looking at one thread after
 the other, marking the first free one, releasing the lock, and only then noting the thread as its
 own; and likewise for giving a thread up.
 */
module Threads {

  datatype ThreadState = Free | Active | Suspended

  /** Where a core is in thread_alloc_and_run, thread_state_free or thread_state_suspend. */
  datatype Pc =
    | Idle
    | Scan(n: nat)
    | Full
    | Found(n: nat)
    | Claimed(n: nat)
    | Refused
    | Run
    | Leave(to: ThreadState)
    | Marked

  datatype State = State(threads: seq<ThreadState>, curr: seq<int>, pc: seq<Pc>, lock: int)

  predicate Holds(pc: Pc) { pc.Scan? || pc.Full? || pc.Found? || pc.Leave? || pc.Marked? }

  // ---------------------------------------------------------------- steps

  ghost predicate IsCore(s: State, c: int) { 0 <= c < |s.pc| && |s.curr| == |s.pc| }

  function At(s: State, c: int, pc: Pc): State
    requires 0 <= c < |s.pc|
  {
    s.(pc := s.pc[c := pc])
  }

  /** thread_alloc_and_run asks for the lock. */
  ghost predicate LockToClaim(s: State, c: int, t: State) {
    IsCore(s, c) && s.pc[c] == Idle && s.curr[c] == -1 && s.lock == -1 && t == At(s, c, Scan(0)).(lock := c)
  }

  /** One turn of the loop. */
  ghost predicate ScanOne(s: State, c: int, t: State) {
    && IsCore(s, c) && s.pc[c].Scan?
    && var n := s.pc[c].n;
      if n >= |s.threads| then t == At(s, c, Full)
      else if s.threads[n] == Free then t == At(s, c, Found(n)).(threads := s.threads[n := Active])
      else t == At(s, c, Scan(n + 1))
  }

  ghost predicate UnlockAfterClaim(s: State, c: int, t: State) {
    && IsCore(s, c) && (s.pc[c].Found? || s.pc[c].Full?)
    && t == At(s, c, if s.pc[c].Found? then Claimed(s.pc[c].n) else Refused).(lock := -1)
  }

  /** The core notes the thread as its own, outside the lock; or reports that there is none. */
  ghost predicate Settle(s: State, c: int, t: State) {
    && IsCore(s, c) && (s.pc[c].Claimed? || s.pc[c].Refused?)
    && if s.pc[c].Claimed? then t == At(s, c, Run).(curr := s.curr[c := s.pc[c].n]) else t == At(s, c, Idle)
  }

  /** thread_state_free and thread_state_suspend ask for the lock. */
  ghost predicate LockToLeave(s: State, c: int, t: State) {
    && IsCore(s, c) && s.pc[c] == Run && s.lock == -1
    && (t == At(s, c, Leave(Free)).(lock := c) || t == At(s, c, Leave(Suspended)).(lock := c))
  }

  ghost predicate Mark(s: State, c: int, t: State) {
    && IsCore(s, c) && s.pc[c].Leave? && 0 <= s.curr[c] < |s.threads|
    && t == At(s, c, Marked).(threads := s.threads[s.curr[c] := s.pc[c].to])
  }

  ghost predicate UnlockAfterLeave(s: State, c: int, t: State) {
    IsCore(s, c) && s.pc[c] == Marked && t == At(s, c, Idle).(curr := s.curr[c := -1], lock := -1)
  }

  /** thread_clr_boot_thread, without the lock, while no other core has started. */
  ghost predicate ClearBoot(s: State, c: int, t: State) {
    && IsCore(s, c) && s.pc[c] == Run && 0 <= s.curr[c] < |s.threads| && s.lock == -1
    && (forall d :: 0 <= d < |s.pc| && d != c ==> s.pc[d] == Idle)
    && t == At(s, c, Idle).(threads := s.threads[s.curr[c] := Free], curr := s.curr[c := -1])
  }

  ghost predicate CoreStep(s: State, c: int, t: State) {
    || LockToClaim(s, c, t) || ScanOne(s, c, t) || UnlockAfterClaim(s, c, t) || Settle(s, c, t)
    || LockToLeave(s, c, t) || Mark(s, c, t) || UnlockAfterLeave(s, c, t) || ClearBoot(s, c, t)
  }

  ghost predicate Step(s: State, t: State) { exists c :: CoreStep(s, c, t) }

  /** thread_init_boot_thread: the boot core runs thread 0. */
  ghost predicate Boot(s: State, cores: nat, threads: nat, boot: nat) {
    && 0 < threads && boot < cores && s.lock == -1
    && s.threads == seq(threads, i => if i == 0 then Active else Free)
    && s.curr == seq(cores, i => -1)[boot := 0]
    && s.pc == seq(cores, i => Idle)[boot := Run]
  }

  // ---------------------------------------------------------------- the invariant

  /** The thread that a core answers for, before and after it notes it. */
  function Owned(s: State, c: int): int
    requires 0 <= c < |s.pc| == |s.curr|
  {
    match s.pc[c]
    case Found(n) => n
    case Claimed(n) => n
    case Run => s.curr[c]
    case Leave(_) => s.curr[c]
    case _ => -1
  }

  ghost predicate Inv(s: State) {
    && |s.curr| == |s.pc|
    && (forall c :: 0 <= c < |s.pc| ==> CoreOk(s, c))
    && (forall c, d :: 0 <= c < |s.pc| && 0 <= d < |s.pc| && c != d ==> PairOk(s, c, d))
    && (forall n :: 0 <= n < |s.threads| && s.threads[n] == Active ==> HasOwner(s, n))
  }

  ghost predicate CoreOk(s: State, c: int)
    requires 0 <= c < |s.pc| == |s.curr|
  {
    && (Holds(s.pc[c]) <==> s.lock == c)
    && (Owned(s, c) != -1 ==> 0 <= Owned(s, c) < |s.threads| && s.threads[Owned(s, c)] == Active)
    && (s.pc[c].Run? || s.pc[c].Leave? ==> s.curr[c] != -1)
    && (s.pc[c].Marked? ==> 0 <= s.curr[c] < |s.threads| && s.threads[s.curr[c]] != Active)
    && (!s.pc[c].Run? && !s.pc[c].Leave? && !s.pc[c].Marked? ==> s.curr[c] == -1)
    && (s.pc[c].Leave? ==> s.pc[c].to != Active)
    && (s.pc[c].Scan? ==> forall j :: 0 <= j < s.pc[c].n && j < |s.threads| ==> s.threads[j] != Free)
    && (s.pc[c].Full? ==> forall j :: 0 <= j < |s.threads| ==> s.threads[j] != Free)
  }

  /** Two cores never answer for the same thread, nor note the same one. */
  ghost predicate PairOk(s: State, c: int, d: int)
    requires 0 <= c < |s.pc| == |s.curr| && 0 <= d < |s.pc|
  {
    && (Owned(s, c) != -1 ==> Owned(s, c) != Owned(s, d))
    && (s.curr[c] != -1 ==> s.curr[c] != s.curr[d])
  }

  ghost predicate HasOwner(s: State, n: int)
    requires |s.pc| == |s.curr|
  {
    exists c :: 0 <= c < |s.pc| && Owned(s, c) == n
  }

  lemma BootInv(s: State, cores: nat, threads: nat, boot: nat)
    requires Boot(s, cores, threads, boot)
    ensures Inv(s)
  {
    assert Owned(s, boot) == 0;
  }

  // ---------------------------------------------------------------- every step keeps it

  /** A step of core c: what has to be seen for the invariant to hold after it. */
  lemma KeepsInv(s: State, c: int, t: State)
    requires Inv(s) && IsCore(s, c) && |t.pc| == |s.pc| && |t.curr| == |s.curr| && |t.threads| == |s.threads|
    requires forall d :: 0 <= d < |s.pc| && d != c ==> t.pc[d] == s.pc[d] && t.curr[d] == s.curr[d]
    requires CoreOk(t, c)
    requires forall d :: 0 <= d < |s.pc| && d != c ==> CoreOk(t, d) && PairOk(t, c, d) && PairOk(t, d, c)
    requires forall n ::
      0 <= n < |t.threads| && t.threads[n] == Active ==>
      (s.threads[n] == Active && n != Owned(s, c)) || n == Owned(t, c)
    ensures Inv(t)
  {
    forall n | 0 <= n < |t.threads| && t.threads[n] == Active ensures HasOwner(t, n) {
      if n != Owned(t, c) {
        var d :| 0 <= d < |s.pc| && Owned(s, d) == n;
        assert Owned(t, d) == n;
      }
    }
    forall a, b | 0 <= a < |t.pc| && 0 <= b < |t.pc| && a != b ensures PairOk(t, a, b) {
      if a != c && b != c { assert PairOk(s, a, b); }
    }
  }

  lemma ClaimKeeps(s: State, c: int, t: State)
    requires Inv(s) && (LockToClaim(s, c, t) || UnlockAfterClaim(s, c, t) || Settle(s, c, t))
    ensures Inv(t)
  {
    assert CoreOk(s, c);
    forall d | 0 <= d < |s.pc| && d != c ensures CoreOk(t, d) && PairOk(t, c, d) && PairOk(t, d, c) {
      assert CoreOk(s, d) && PairOk(s, c, d) && PairOk(s, d, c);
      if Owned(s, c) != -1 { NotOwnedElsewhere(s, c, d); }
    }
    KeepsInv(s, c, t);
  }

  /** A claimed thread is active, so no other core notes it: a core that notes a thread answers for it, or has just
      marked it otherwise. */
  lemma NotOwnedElsewhere(s: State, c: int, d: int)
    requires Inv(s) && IsCore(s, c) && 0 <= d < |s.pc| && d != c && Owned(s, c) != -1
    ensures s.curr[d] != Owned(s, c)
  {
    assert CoreOk(s, c) && CoreOk(s, d) && PairOk(s, c, d) && PairOk(s, d, c);
  }

  lemma ScanKeeps(s: State, c: int, t: State)
    requires Inv(s) && ScanOne(s, c, t)
    ensures Inv(t)
  {
    assert CoreOk(s, c);
    forall d | 0 <= d < |s.pc| && d != c ensures CoreOk(t, d) && PairOk(t, c, d) && PairOk(t, d, c) {
      assert CoreOk(s, d) && PairOk(s, c, d) && PairOk(s, d, c);
    }
    KeepsInv(s, c, t);
  }

  lemma LeaveKeeps(s: State, c: int, t: State)
    requires Inv(s) && (LockToLeave(s, c, t) || Mark(s, c, t) || UnlockAfterLeave(s, c, t))
    ensures Inv(t)
  {
    assert CoreOk(s, c);
    forall d | 0 <= d < |s.pc| && d != c ensures CoreOk(t, d) && PairOk(t, c, d) && PairOk(t, d, c) {
      assert CoreOk(s, d) && PairOk(s, c, d) && PairOk(s, d, c);
    }
    KeepsInv(s, c, t);
  }

  lemma ClearBootKeeps(s: State, c: int, t: State)
    requires Inv(s) && ClearBoot(s, c, t)
    ensures Inv(t)
  {
    assert CoreOk(s, c);
    forall d | 0 <= d < |s.pc| && d != c ensures CoreOk(t, d) && PairOk(t, c, d) && PairOk(t, d, c) {
      assert CoreOk(s, d) && PairOk(s, c, d) && PairOk(s, d, c);
    }
    KeepsInv(s, c, t);
  }

  lemma StepKeepsInv(s: State, t: State)
    requires Inv(s) && Step(s, t)
    ensures Inv(t)
  {
    var c :| CoreStep(s, c, t);
    if ScanOne(s, c, t) { ScanKeeps(s, c, t); }
    else if LockToClaim(s, c, t) || UnlockAfterClaim(s, c, t) || Settle(s, c, t) { ClaimKeeps(s, c, t); }
    else if ClearBoot(s, c, t) { ClearBootKeeps(s, c, t); }
    else { LeaveKeeps(s, c, t); }
  }

  // ---------------------------------------------------------------- every run

  ghost predicate IsRun(run: seq<State>, cores: nat, threads: nat, boot: nat) {
    && |run| > 0 && Boot(run[0], cores, threads, boot)
    && forall i :: 0 <= i < |run| - 1 ==> Step(run[i], run[i + 1])
  }

  lemma {:induction false} RunKeepsInv(run: seq<State>, cores: nat, threads: nat, boot: nat, i: nat)
    requires IsRun(run, cores, threads, boot) && i < |run|
    ensures Inv(run[i])
  {
    if i == 0 {
      BootInv(run[0], cores, threads, boot);
    } else {
      RunKeepsInv(run, cores, threads, boot, i - 1);
      StepKeepsInv(run[i - 1], run[i]);
    }
  }

  /** In every state of every run: a thread is active exactly when one core, and one core only, answers for it; and no
      two cores have noted the same thread. */
  lemma OneOwner(run: seq<State>, cores: nat, threads: nat, boot: nat, i: nat, n: int)
    requires IsRun(run, cores, threads, boot) && i < |run| && 0 <= n < |run[i].threads|
    ensures var s := run[i];
      && |s.pc| == |s.curr|
      && (s.threads[n] == Active <==> exists c :: 0 <= c < |s.pc| && Owned(s, c) == n)
      && (forall c, d :: 0 <= c < |s.pc| && 0 <= d < |s.pc| && Owned(s, c) == n && Owned(s, d) == n ==> c == d)
      && (forall c, d :: 0 <= c < |s.pc| && 0 <= d < |s.pc| && s.curr[c] == n && s.curr[d] == n ==> c == d)
  {
    var s := run[i];
    RunKeepsInv(run, cores, threads, boot, i);
    if s.threads[n] == Active { assert HasOwner(s, n); }
    forall c | 0 <= c < |s.pc| && Owned(s, c) == n ensures s.threads[n] == Active { assert CoreOk(s, c); }
    forall c, d | 0 <= c < |s.pc| && 0 <= d < |s.pc| && c != d ensures !(Owned(s, c) == n && Owned(s, d) == n)
      && !(s.curr[c] == n && s.curr[d] == n) {
      assert PairOk(s, c, d);
    }
  }

  /** A core is refused a thread only when, with the lock held, none was free. */
  lemma RefusedWhenFull(run: seq<State>, cores: nat, threads: nat, boot: nat, i: nat, c: int)
    requires IsRun(run, cores, threads, boot) && i < |run| && IsCore(run[i], c) && run[i].pc[c] == Full
    ensures run[i].lock == c && forall n :: 0 <= n < |run[i].threads| ==> run[i].threads[n] != Free
  {
    RunKeepsInv(run, cores, threads, boot, i);
    assert CoreOk(run[i], c);
  }
}
