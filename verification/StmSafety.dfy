/** Every operation keeps the counts of the snapshots exact, and what follows from it. */
module StmSafety {
  import opened Counting
  import opened RwLock
  import opened Stm

  /** All counts that thread `t` can change by going on as `x`. */
  lemma CountsPut(ts: map<nat, Thread>, t: nat, x: Thread)
    requires t in ts
    ensures forall c {:trigger Holders(ts[t := x], c)} :: |Holders(ts[t := x], c)| + One(c in Holds(ts[t].op)) == |Holders(ts, c)| + One(c in Holds(x.op))
    ensures forall c {:trigger Keepers(ts[t := x], c)} :: |Keepers(ts[t := x], c)| + One(ts[t].last == To(c)) == |Keepers(ts, c)| + One(x.last == To(c))
    ensures AnyGiving(ts[t := x]) <==> Giving(x.op) || exists u :: u in ts && u != t && Giving(ts[u].op)
    ensures Giving(ts[t].op) ==> AnyGiving(ts)
  {
    hide Holders, Keepers, Holds;
    forall c ensures |Holders(ts[t := x], c)| + One(c in Holds(ts[t].op)) == |Holders(ts, c)| + One(c in Holds(x.op)) { HoldersPut(ts, t, x, c); }
    forall c ensures |Keepers(ts[t := x], c)| + One(ts[t].last == To(c)) == |Keepers(ts, c)| + One(x.last == To(c)) { KeepersPut(ts, t, x, c); }
    GivingPut(ts, t, x);
  }

  ghost predicate Freer(ts: map<nat, Thread>, c: nat) { exists t :: t in ts && c in Frees(ts[t].op) }

  lemma FreerPut(ts: map<nat, Thread>, t: nat, x: Thread, c: nat)
    requires t in ts
    ensures c in Frees(x.op) ==> Freer(ts[t := x], c)
    ensures c !in Frees(ts[t].op) && Freer(ts, c) ==> Freer(ts[t := x], c)
  {
    hide Frees;
    var ts2 := ts[t := x];
    if c in Frees(x.op) { assert t in ts2 && c in Frees(ts2[t].op); }
    if c !in Frees(ts[t].op) && Freer(ts, c) {
      var u :| u in ts && c in Frees(ts[u].op);
      assert u in ts2 && c in Frees(ts2[u].op);
    }
  }

  function Contrib(x: Thread, c: nat): nat { One(c in Holds(x.op)) + One(x.last == To(c)) }

  /** What thread `t`, going on as `x`, adds to the holders of copy c, the object's own pointer included. */
  ghost function Change(copy: Ref, copy2: Ref, ts: map<nat, Thread>, t: nat, x: Thread, c: nat): int
    requires t in ts
  {
    Contrib(x, c) + One(Share(copy2, ts[t := x], c)) - Contrib(ts[t], c) - One(Share(copy, ts, c))
  }

  /** The counts change as the holders do. */
  lemma CountedMove(copies: map<nat, Copy>, copies2: map<nat, Copy>, copy: Ref, copy2: Ref, ts: map<nat, Thread>, t: nat, x: Thread)
    requires Counted(copies, copy, ts) && t in ts && copies2.Keys == copies.Keys
    requires forall c :: c in copies ==> copies2[c].refs == copies[c].refs + Change(copy, copy2, ts, t, x, c)
    requires forall c :: c in Holds(x.op) || x.last == To(c) || Share(copy2, ts[t := x], c) ==> c in copies
    requires forall c :: c in copies && copies2[c].refs == 0 && copies[c].refs != 0 ==> c in Frees(x.op)
    requires forall c :: c in copies && copies[c].refs == 0 ==> copies2[c].refs == 0 && (c in Frees(ts[t].op) ==> c in Frees(x.op))
    requires forall c :: c in Frees(x.op) ==> c in copies && copies2[c].refs == 0 && (copies[c].refs != 0 || c in Frees(ts[t].op))
    ensures Counted(copies2, copy2, ts[t := x])
  {
    hide Holders, Keepers, Holds, Frees, Giving, AnyGiving, Share, Contrib, Change;
    var ts2 := ts[t := x];
    forall c | c in copies ensures copies2[c].refs == |Holders(ts2, c)| + |Keepers(ts2, c)| + One(Share(copy2, ts2, c)) {
      MoveSizes(copy, copy2, ts, t, x, c);
    }
    forall c | c in copies2 && copies2[c].refs == 0 ensures exists u :: u in ts2 && c in Frees(ts2[u].op) {
      FreerPut(ts, t, x, c);
      if c !in Frees(x.op) { assert Freer(ts, c); }
      assert Freer(ts2, c);
    }
    ShareIs(copy2, ts2);
  }

  lemma ShareIs(copy: Ref, ts: map<nat, Thread>)
    ensures copy.To? && !AnyGiving(ts) ==> Share(copy, ts, copy.c)
  {
  }

  lemma MoveSizes(copy: Ref, copy2: Ref, ts: map<nat, Thread>, t: nat, x: Thread, c: nat)
    requires t in ts
    ensures |Holders(ts[t := x], c)| + |Keepers(ts[t := x], c)| + One(Share(copy2, ts[t := x], c))
      == |Holders(ts, c)| + |Keepers(ts, c)| + One(Share(copy, ts, c)) + Change(copy, copy2, ts, t, x, c)
  {
    hide Holders, Keepers, Holds, Share;
    HoldersPut(ts, t, x, c);
    KeepersPut(ts, t, x, c);
  }

  /** The copy is freed by the one thread that has to. */
  lemma CountedFree(copies: map<nat, Copy>, copy: Ref, ts: map<nat, Thread>, t: nat, x: Thread, dead: nat)
    requires Counted(copies, copy, ts) && t in ts && Frees(ts[t].op) == {dead} && Frees(x.op) == {}
    requires forall c :: Contrib(x, c) == Contrib(ts[t], c)
    requires Giving(x.op) == Giving(ts[t].op)
    ensures dead in copies && Counted(copies - {dead}, copy, ts[t := x])
  {
    hide Holders, Keepers, Holds, Frees, Giving;
    var ts2 := ts[t := x];
    CountsPut(ts, t, x);
    GivingSame(ts, t, x);
    NobodyHas(copies, copy, ts, dead);
    forall c | c in copies - {dead} ensures copies[c].refs == |Holders(ts2, c)| + |Keepers(ts2, c)| + One(Share(copy, ts2, c)) {
      assert Contrib(x, c) == Contrib(ts[t], c);
      assert |Holders(ts2, c)| + One(c in Holds(ts[t].op)) == |Holders(ts, c)| + One(c in Holds(x.op));
      assert |Keepers(ts2, c)| + One(ts[t].last == To(c)) == |Keepers(ts, c)| + One(x.last == To(c));
    }
    forall c | c in copies - {dead} && copies[c].refs == 0 ensures exists u :: u in ts2 && c in Frees(ts2[u].op) {
      assert Freer(ts, c);
      FreerPut(ts, t, x, c);
      assert Freer(ts2, c);
    }
    forall c | c in Holds(x.op) || x.last == To(c) ensures c in copies && c != dead {
      assert Contrib(x, c) == Contrib(ts[t], c);
    }
  }

  /** Nobody has a copy whose count is zero. */
  lemma NobodyHas(copies: map<nat, Copy>, copy: Ref, ts: map<nat, Thread>, c: nat)
    requires Counted(copies, copy, ts) && c in copies && copies[c].refs == 0
    ensures !Share(copy, ts, c) && forall t :: t in ts ==> c !in Holds(ts[t].op) && ts[t].last != To(c)
  {
    hide Holds, Frees, Giving;
    forall t | t in ts ensures c !in Holds(ts[t].op) && ts[t].last != To(c) {
      assert t !in Holders(ts, c) by { if t in Holders(ts, c) { SizePositive(Holders(ts, c), t); } }
      assert t !in Keepers(ts, c) by { if t in Keepers(ts, c) { SizePositive(Keepers(ts, c), t); } }
    }
  }

  /** A new copy, in the hands of its writer. */
  lemma CountedNew(copies: map<nat, Copy>, copy: Ref, ts: map<nat, Thread>, t: nat, x: Thread, c0: nat, msg: nat)
    requires Counted(copies, copy, ts) && t in ts && c0 !in copies && (copy == To(c0) ==> AnyGiving(ts))
    requires Holds(x.op) == {c0} && Holds(ts[t].op) == {} && x.last == ts[t].last
    requires Frees(x.op) == Frees(ts[t].op) == {} && !Giving(x.op) && !Giving(ts[t].op)
    ensures Counted(copies[c0 := Copy(1, msg)], copy, ts[t := x])
  {
    hide Holders, Keepers, Holds, Frees, Giving;
    var ts2 := ts[t := x];
    CountsPut(ts, t, x);
    GivingSame(ts, t, x);
    NobodyYet(copies, copy, ts, c0);
    forall c | c in copies ensures copies[c].refs == |Holders(ts2, c)| + |Keepers(ts2, c)| + One(Share(copy, ts2, c)) {
      assert |Holders(ts2, c)| == |Holders(ts, c)| && |Keepers(ts2, c)| == |Keepers(ts, c)|;
    }
    assert |Holders(ts2, c0)| == 1 && |Keepers(ts2, c0)| == 0;
    forall c | c in copies && copies[c].refs == 0 ensures exists u :: u in ts2 && c in Frees(ts2[u].op) {
      assert Freer(ts, c);
      FreerPut(ts, t, x, c);
      assert Freer(ts2, c);
    }
  }

  lemma NobodyYet(copies: map<nat, Copy>, copy: Ref, ts: map<nat, Thread>, c: nat)
    requires Counted(copies, copy, ts) && c !in copies
    ensures |Holders(ts, c)| == 0 && |Keepers(ts, c)| == 0
  {
    hide Holds, Frees, Giving;
    assert Holders(ts, c) == {};
    assert Keepers(ts, c) == {};
  }

  lemma GivingSame(ts: map<nat, Thread>, t: nat, x: Thread)
    requires t in ts && Giving(x.op) == Giving(ts[t].op)
    ensures AnyGiving(ts[t := x]) == AnyGiving(ts)
  {
    hide Giving;
    GivingPut(ts, t, x);
  }

  // ---------------------------------------------------------------- each operation

  lemma Assemble(s: Sys, s2: Sys, t: nat, x: Thread)
    requires Inv(s) && t in s.threads && s2.threads == s.threads[t := x]
    requires LockInv(s2.lock, Phases(s.threads)[t := x.phase]) && InPhase(x)
    requires x.op.Inc? ==> x.op.ret == s2.copy
    requires s2.copy == s.copy || forall u :: u in s.threads && u != t ==> !s.threads[u].op.Inc?
    requires Counted(s2.copies, s2.copy, s2.threads)
    requires (forall c :: c in s2.freed ==> c !in s2.copies && s2.freed[c] == 1) && (forall c :: c in s2.copies ==> c !in s2.freed)
    ensures Inv(s2)
  {
    hide Counted, LockInv, InPhase;
    PhasesPut(s.threads, t, x);
  }

  /** The lock is not touched. */
  lemma LockSame(s: Sys, t: nat)
    requires Inv(s) && t in s.threads
    ensures LockInv(s.lock, Phases(s.threads)[t := s.threads[t].phase]) && InPhase(s.threads[t])
  {
    hide Counted, LockInv;
    assert Phases(s.threads)[t := s.threads[t].phase] == Phases(s.threads);
  }

  lemma FreedSame(s: Sys, copies2: map<nat, Copy>)
    requires Inv(s) && copies2.Keys == s.copies.Keys
    ensures (forall c :: c in s.freed ==> c !in copies2 && s.freed[c] == 1) && (forall c :: c in copies2 ==> c !in s.freed)
  {
    hide Counted, LockInv;
  }

  /** Holders stay as they are. */
  lemma StepQuiet(s: Sys, t: nat, x: Thread, l: Lock)
    requires Inv(s) && t in s.threads && x.last == s.threads[t].last
    requires LockInv(l, Phases(s.threads)[t := x.phase]) && InPhase(x) && (x.op.Inc? ==> x.op.ret == s.copy)
    requires Holds(x.op) == Holds(s.threads[t].op) && Frees(x.op) == Frees(s.threads[t].op) && Giving(x.op) == Giving(s.threads[t].op)
    ensures Inv(Put(s.(lock := l), t, x))
  {
    hide Counted, LockInv, InPhase, Holds, Frees, Giving;
    var s2 := Put(s.(lock := l), t, x);
    GivingSame(s.threads, t, x);
    OwnLive(s, t);
    forall c ensures Change(s.copy, s.copy, s.threads, t, x, c) == 0 { }
    CountedMove(s.copies, s.copies, s.copy, s.copy, s.threads, t, x);
    FreedSame(s, s.copies);
    Assemble(s, s2, t, x);
  }

  /** What a thread has, and what the object has, is there. */
  lemma OwnLive(s: Sys, t: nat)
    requires Inv(s) && t in s.threads
    ensures forall c :: c in Holds(s.threads[t].op) ==> c in s.copies && s.copies[c].refs > 0
    ensures s.threads[t].last.To? ==> s.threads[t].last.c in s.copies && s.copies[s.threads[t].last.c].refs > 0
    ensures s.copy.To? && !AnyGiving(s.threads) ==> s.copy.c in s.copies && s.copies[s.copy.c].refs > 0
    ensures forall c :: c in Frees(s.threads[t].op) ==> c in s.copies && s.copies[c].refs == 0
    ensures forall c :: c in s.copies ==> s.copies[c].refs >= 0
  {
    hide LockInv, InPhase, Holds, Frees, Giving, Holders, Keepers;
    forall c | c in Holds(s.threads[t].op) ensures s.copies[c].refs > 0 { SizePositive2(s.threads, t, c); }
    if s.threads[t].last.To? { SizePositive3(s.threads, t, s.threads[t].last.c); }
  }

  lemma SizePositive2(ts: map<nat, Thread>, t: nat, c: nat)
    requires t in ts && c in Holds(ts[t].op)
    ensures |Holders(ts, c)| >= 1
  {
    SizePositive(Holders(ts, c), t);
  }

  lemma SizePositive3(ts: map<nat, Thread>, t: nat, c: nat)
    requires t in ts && ts[t].last == To(c)
    ensures |Keepers(ts, c)| >= 1
  {
    SizePositive(Keepers(ts, c), t);
  }

  /** Acquiring and releasing. */
  lemma StepLocked(s: Sys, t: nat, op: Op)
    requires Inv(s) && t in s.threads
    requires var x := s.threads[t]; (x.op.ReadLock? && op.Load?) || (x.op.WriteLock? && op == Swap(x.op.c)) || (x.op.QuitLock? && op.QuitDrop?)
    ensures Inv(Locked(s, t, s.threads[t], op))
  {
    hide Counted, LockInv;
    var x, a := s.threads[t], Acquire(s.lock, s.threads[t].phase);
    assert InPhase(x) && Phases(s.threads)[t] == x.phase;
    AcquireInv(s.lock, Phases(s.threads), t);
    StepQuiet(s, t, x.(phase := a.1, op := if a.1.Reading? || a.1.Writing? then op else x.op), a.0);
  }

  lemma StepUnlocked(s: Sys, t: nat, op: Op)
    requires Inv(s) && t in s.threads
    requires var o := s.threads[t].op; (o.ReadUnlock? && op == Compare(o.ret)) || (o.WriteUnlock? && op == DropOld(o.was)) || (o.QuitUnlock? && op.Rest?)
    ensures Inv(Unlocked(s, t, s.threads[t], op))
  {
    hide Counted, LockInv;
    var x, a := s.threads[t], Release(s.lock, s.threads[t].phase);
    assert InPhase(x) && Phases(s.threads)[t] == x.phase;
    ReleaseInv(s.lock, Phases(s.threads), t);
    StepQuiet(s, t, x.(phase := a.1, op := op), a.0);
  }

  /** The increment of stm_copy: the object's copy is live, as no writer can be inside. */
  lemma StepInc(s: Sys, t: nat, c0: nat)
    requires Inv(s) && t in s.threads && s.threads[t].op == Inc(To(c0))
    ensures c0 in s.copies && s.copies[c0].refs > 0
    ensures Inv(Put(s.(copies := s.copies[c0 := s.copies[c0].(refs := s.copies[c0].refs + 1)]), t, s.threads[t].(op := ReadUnlock(To(c0)))))
  {
    hide Counted, LockInv, AnyGiving;
    var x := s.threads[t].(op := ReadUnlock(To(c0)));
    assert InPhase(s.threads[t]) && s.copy == To(c0);
    ReaderSafe(s, t);
    OwnLive(s, t);
    var copies2 := s.copies[c0 := s.copies[c0].(refs := s.copies[c0].refs + 1)];
    GivingSame(s.threads, t, x);
    forall c ensures Change(s.copy, s.copy, s.threads, t, x, c) == One(c == c0) { }
    CountedMove(s.copies, copies2, s.copy, s.copy, s.threads, t, x);
    LockSame(s, t);
    FreedSame(s, copies2);
    Assemble(s, Put(s.(copies := copies2), t, x), t, x);
  }

  /** `x` has the references of thread t but one to c0, which may also be the object's own. */
  ghost predicate OneLess(s: Sys, t: nat, x: Thread, c0: nat)
    requires t in s.threads
  {
    && x.phase == s.threads[t].phase && InPhase(x) && !x.op.Inc?
    && (Giving(x.op) ==> s.copy == To(c0) && !AnyGiving(s.threads))
    && forall c :: Contrib(x, c) + One(c == c0 && !Giving(x.op)) == Contrib(s.threads[t], c)
  }

  lemma LessChange(s: Sys, t: nat, x: Thread, c0: nat)
    requires t in s.threads && OneLess(s, t, x, c0) && !Giving(s.threads[t].op)
    ensures forall c :: Change(s.copy, s.copy, s.threads, t, x, c) == 0 - One(c == c0)
  {
    hide Holds, InPhase, Giving, Contrib;
    GivingPut(s.threads, t, x);
    NotGiving(s.threads, t);
    forall c ensures Change(s.copy, s.copy, s.threads, t, x, c) == 0 - One(c == c0) {
      assert Contrib(x, c) + One(c == c0 && !Giving(x.op)) == Contrib(s.threads[t], c);
    }
  }

  /** stm_releasecopy: one reference less, of a copy that is there. */
  lemma StepDropTo(s: Sys, t: nat, x: Thread, c0: nat)
    requires Inv(s) && t in s.threads && c0 in s.copies && s.copies[c0].refs > 0
    requires !Giving(s.threads[t].op) && !s.threads[t].op.Free? && OneLess(s, t, x, c0)
    requires Frees(x.op) == if s.copies[c0].refs == 1 then {c0} else {}
    ensures Inv(Put(s.(copies := s.copies[c0 := s.copies[c0].(refs := s.copies[c0].refs - 1)]), t, x))
  {
    hide Counted, LockInv, AnyGiving, Holds, InPhase, Contrib, Change, Giving, Share;
    var copies2 := s.copies[c0 := s.copies[c0].(refs := s.copies[c0].refs - 1)];
    OwnLive(s, t);
    LessChange(s, t, x, c0);
    LessHas(s, t, x, c0);
    CountedMove(s.copies, copies2, s.copy, s.copy, s.threads, t, x);
    LockSame(s, t);
    FreedSame(s, copies2);
    Assemble(s, Put(s.(copies := copies2), t, x), t, x);
  }

  lemma LessHas(s: Sys, t: nat, x: Thread, c0: nat)
    requires Inv(s) && t in s.threads && OneLess(s, t, x, c0) && !Giving(s.threads[t].op)
    ensures forall c :: c in Holds(x.op) || x.last == To(c) || Share(s.copy, s.threads[t := x], c) ==> c in s.copies
  {
    hide Counted, LockInv, Holds, InPhase, Contrib, Giving;
    ContribHas(x, s.threads[t]);
    OwnLive(s, t);
    GivingPut(s.threads, t, x);
    NotGiving(s.threads, t);
    forall c | c in Holds(x.op) || x.last == To(c) ensures c in s.copies {
      assert Contrib(x, c) + One(c == c0 && !Giving(x.op)) == Contrib(s.threads[t], c);
    }
  }

  lemma StepDrop(s: Sys, t: nat, x0: Thread, c0: nat, next: After)
    requires Inv(s) && t in s.threads && c0 in s.copies && s.copies[c0].refs > 0
    requires !Giving(s.threads[t].op) && !s.threads[t].op.Free?
    requires OneLess(s, t, Resume(x0, next), c0) && OneLess(s, t, x0.(op := Free(c0, next)), c0)
    ensures Inv(Drop(s, t, x0, To(c0), next))
  {
    hide Inv, OneLess;
    StepDropTo(s, t, if s.copies[c0].refs == 1 then x0.(op := Free(c0, next)) else Resume(x0, next), c0);
  }

  lemma NotGiving(ts: map<nat, Thread>, t: nat)
    requires t in ts && !Giving(ts[t].op)
    ensures AnyGiving(ts) <==> exists u :: u in ts && u != t && Giving(ts[u].op)
  {
  }

  lemma ContribHas(x: Thread, y: Thread)
    ensures forall c :: (c in Holds(x.op) || x.last == To(c)) <==> Contrib(x, c) > 0
    ensures forall c :: (c in Holds(y.op) || y.last == To(c)) <==> Contrib(y, c) > 0
  {
  }

  /** Nothing to release: the thread goes on. */
  lemma StepDropNull(s: Sys, t: nat, x: Thread)
    requires Inv(s) && t in s.threads && x.phase == s.threads[t].phase && InPhase(x) && !x.op.Inc?
    requires forall c :: Contrib(x, c) == Contrib(s.threads[t], c)
    requires Frees(x.op) == Frees(s.threads[t].op) == {} && (Giving(x.op) ==> s.copy == Null)
    requires !Giving(s.threads[t].op)
    ensures Inv(Put(s, t, x))
  {
    hide Counted, LockInv, InPhase, Contrib, Holds, Giving, Frees;
    GivingPut(s.threads, t, x);
    NotGiving(s.threads, t);
    OwnLive(s, t);
    ContribHas(x, s.threads[t]);
    forall c ensures Change(s.copy, s.copy, s.threads, t, x, c) == 0 { assert Contrib(x, c) == Contrib(s.threads[t], c); }
    forall c | c in Holds(x.op) || x.last == To(c) ensures c in s.copies { assert Contrib(x, c) == Contrib(s.threads[t], c); }
    CountedMove(s.copies, s.copies, s.copy, s.copy, s.threads, t, x);
    LockSame(s, t);
    FreedSame(s, s.copies);
    Assemble(s, Put(s, t, x), t, x);
  }

  /** The writer exchanges the pointer: its reference for the object's. */
  lemma StepSwap(s: Sys, t: nat)
    requires Inv(s) && t in s.threads && s.threads[t].op.Swap?
    ensures Inv(Put(s.(copy := To(s.threads[t].op.c)), t, s.threads[t].(op := WriteUnlock(s.copy))))
  {
    hide Counted, LockInv;
    var c0, x := s.threads[t].op.c, s.threads[t].(op := WriteUnlock(s.copy));
    OwnLive(s, t);
    AloneInside(s, t);
    GivingSame(s.threads, t, x);
    assert !AnyGiving(s.threads);
    forall c ensures Change(s.copy, To(c0), s.threads, t, x, c) == 0 { }
    CountedMove(s.copies, s.copies, s.copy, To(c0), s.threads, t, x);
    LockSame(s, t);
    FreedSame(s, s.copies);
    Assemble(s, Put(s.(copy := To(c0)), t, x), t, x);
  }

  /** A thread that writes sees nobody else inside the lock. */
  lemma AloneInside(s: Sys, t: nat)
    requires Inv(s) && t in s.threads && s.threads[t].phase.Writing?
    ensures forall u :: u in s.threads && u != t ==> !Giving(s.threads[u].op) && !s.threads[u].op.Inc? && !s.threads[u].op.Load?
  {
    hide Counted, LockInv;
    forall u | u in s.threads && u != t ensures !Giving(s.threads[u].op) && !s.threads[u].op.Inc? && !s.threads[u].op.Load? {
      GiverWrites(s, t, u);
      assert InPhase(s.threads[u]);
    }
  }

  /** obj->copy = NULL, of a pointer whose reference is gone already. */
  lemma StepClear(s: Sys, t: nat)
    requires Inv(s) && t in s.threads && s.threads[t].op.QuitClear?
    ensures Inv(Put(s.(copy := Null), t, s.threads[t].(op := QuitUnlock)))
  {
    hide Counted, LockInv;
    var x := s.threads[t].(op := QuitUnlock);
    OwnLive(s, t);
    AloneInside(s, t);
    assert AnyGiving(s.threads);
    forall c ensures Change(s.copy, Null, s.threads, t, x, c) == 0 { }
    CountedMove(s.copies, s.copies, s.copy, Null, s.threads, t, x);
    LockSame(s, t);
    FreedSame(s, s.copies);
    Assemble(s, Put(s.(copy := Null), t, x), t, x);
  }

  /** The second half of stm_releasecopy: the payload and the copy are freed, for the first time. */
  lemma StepFree(s: Sys, t: nat)
    requires Inv(s) && t in s.threads && s.threads[t].op.Free?
    ensures s.threads[t].op.dead in s.copies && s.threads[t].op.dead !in s.freed
    ensures var f := s.threads[t].op;
      Inv(Put(s.(copies := s.copies - {f.dead}, freed := s.freed[f.dead := 1]), t, Resume(s.threads[t], f.next)))
  {
    hide Counted, LockInv;
    var f, x := s.threads[t].op, Resume(s.threads[t], s.threads[t].op.next);
    assert InPhase(s.threads[t]);
    OwnLive(s, t);
    assert forall c :: Contrib(x, c) == Contrib(s.threads[t], c);
    CountedFree(s.copies, s.copy, s.threads, t, x, f.dead);
    LockSame(s, t);
    Assemble(s, Put(s.(copies := s.copies - {f.dead}, freed := s.freed[f.dead := 1]), t, x), t, x);
  }

  // ---------------------------------------------------------------- runs

  /** The operations of a reader keep the invariant, and touch only what is there. */
  lemma ReaderInv(s: Sys, t: nat)
    requires Inv(s) && t in s.threads
    requires var o := s.threads[t].op; o.ReadLock? || o.Load? || o.Inc? || o.ReadUnlock? || o.Compare? || o.DropSame? || o.Replace? || o.DropLast?
    ensures Touches(s, s.threads[t]) && Inv(Advance(s, t))
  {
    hide Inv, Locked, Unlocked, Counted, LockInv;
    Facts(s, t);
    OwnLive(s, t);
    var x := s.threads[t];
    match x.op {
      case ReadLock => StepLocked(s, t, Load);
      case Load => StepQuiet(s, t, x.(op := Inc(s.copy)), s.lock);
      case Inc(ret) => if ret.To? { StepInc(s, t, ret.c); } else { StepQuiet(s, t, x.(op := ReadUnlock(ret)), s.lock); }
      case ReadUnlock(ret) => StepUnlocked(s, t, Compare(ret));
      case Compare(ret) => StepQuiet(s, t, x.(op := if ret == x.last then DropSame(ret) else Replace(ret)), s.lock);
      case DropSame(_) => SameDropped(s, t);
      case Replace(_) => LastReplaced(s, t);
      case DropLast => LastDropped(s, t);
    }
  }

  lemma SameDropped(s: Sys, t: nat)
    requires Inv(s) && t in s.threads && s.threads[t].op.DropSame?
    ensures Touches(s, s.threads[t]) && Inv(Advance(s, t))
  {
    hide Inv, Counted, LockInv, Holders, Keepers, Share, AnyGiving;
    Facts(s, t);
    OwnLive(s, t);
    var x := s.threads[t];
    if x.op.ret.To? { StepDrop(s, t, x, x.op.ret.c, ToRest); } else { StepDropNull(s, t, x.(op := Rest)); }
  }

  lemma LastReplaced(s: Sys, t: nat)
    requires Inv(s) && t in s.threads && s.threads[t].op.Replace?
    ensures Touches(s, s.threads[t]) && Inv(Advance(s, t))
  {
    hide Inv, Counted, LockInv, Holders, Keepers, Share, AnyGiving;
    Facts(s, t);
    OwnLive(s, t);
    var x := s.threads[t];
    if x.last.To? { StepDrop(s, t, x.(last := Null), x.last.c, ToReplaced(x.op.ret)); }
    else { StepDropNull(s, t, x.(op := Rest, last := x.op.ret)); }
  }

  lemma LastDropped(s: Sys, t: nat)
    requires Inv(s) && t in s.threads && s.threads[t].op.DropLast?
    ensures Touches(s, s.threads[t]) && Inv(Advance(s, t))
  {
    hide Inv, Counted, LockInv, Holders, Keepers, Share, AnyGiving;
    Facts(s, t);
    OwnLive(s, t);
    var x := s.threads[t];
    if x.last.To? { StepDrop(s, t, x.(last := Null), x.last.c, ToRest); } else { StepDropNull(s, t, x.(op := Rest, last := Null)); }
  }

  /** So do those of a writer, and the freeing. */
  lemma WriterInv(s: Sys, t: nat)
    requires Inv(s) && t in s.threads
    requires var o := s.threads[t].op;
      o.WriteLock? || o.Swap? || o.WriteUnlock? || o.DropOld? || o.QuitLock? || o.QuitDrop? || o.QuitClear? || o.QuitUnlock? || o.Free?
    ensures Touches(s, s.threads[t]) && Inv(Advance(s, t))
  {
    hide Inv, Locked, Unlocked, Counted, LockInv;
    Facts(s, t);
    OwnLive(s, t);
    var x := s.threads[t];
    match x.op {
      case WriteLock(c) => StepLocked(s, t, Swap(c));
      case Swap(c) => StepSwap(s, t);
      case WriteUnlock(was) => StepUnlocked(s, t, DropOld(was));
      case DropOld(was) => WriterDrops(s, t);
      case QuitLock => StepLocked(s, t, QuitDrop);
      case QuitDrop => WriterDrops(s, t);
      case QuitClear => StepClear(s, t);
      case QuitUnlock => StepUnlocked(s, t, Rest);
      case Free(dead, next) => StepFree(s, t);
    }
  }

  lemma WriterDrops(s: Sys, t: nat)
    requires Inv(s) && t in s.threads && (s.threads[t].op.DropOld? || s.threads[t].op.QuitDrop?)
    ensures Touches(s, s.threads[t]) && Inv(Advance(s, t))
  {
    hide Inv, Counted, LockInv, Holders, Keepers, Share, AnyGiving;
    Facts(s, t);
    OwnLive(s, t);
    var x := s.threads[t];
    match x.op {
      case DropOld(was) => if was.To? { StepDrop(s, t, x, was.c, ToRest); } else { StepDropNull(s, t, x.(op := Rest)); }
      case QuitDrop =>
        QuitAlone(s, t);
        if s.copy.To? { StepDrop(s, t, x, s.copy.c, ToQuitClear); } else { StepDropNull(s, t, x.(op := QuitClear)); }
    }
  }

  lemma AdvanceInv(s: Sys, t: nat)
    requires Inv(s) && t in s.threads
    ensures Touches(s, s.threads[t]) && Inv(Advance(s, t))
  {
    hide Inv, Advance, Touches;
    var o := s.threads[t].op;
    if o.Rest? { RestTouches(s, t); }
    else if o.ReadLock? || o.Load? || o.Inc? || o.ReadUnlock? || o.Compare? || o.DropSame? || o.Replace? || o.DropLast? { ReaderInv(s, t); }
    else { WriterInv(s, t); }
  }

  lemma RestTouches(s: Sys, t: nat)
    requires t in s.threads && s.threads[t].op.Rest?
    ensures Touches(s, s.threads[t]) && Advance(s, t) == s
  {
  }

  lemma Facts(s: Sys, t: nat)
    requires Inv(s) && t in s.threads
    ensures InPhase(s.threads[t]) && LockInv(s.lock, Phases(s.threads)[t := s.threads[t].phase])
    ensures s.threads[t].op.Inc? ==> s.threads[t].op.ret == s.copy
    ensures LockInv(s.lock, Phases(s.threads)) && Phases(s.threads)[t := s.threads[t].phase] == Phases(s.threads)
  {
    LockSame(s, t);
  }

  lemma QuitAlone(s: Sys, t: nat)
    requires Inv(s) && t in s.threads && s.threads[t].op.QuitDrop?
    ensures !AnyGiving(s.threads)
  {
    hide Counted, LockInv;
    assert InPhase(s.threads[t]);
    AloneInside(s, t);
  }

  /** A thread at rest begins an operation that has nothing in hand yet. */
  lemma BeginStep(s: Sys, t: nat, p: Phase, op: Op)
    requires Inv(s) && t in s.threads && s.threads[t].op.Rest?
    requires (p.ReadSpin? && op.ReadLock?) || (p.Out? && op.DropLast?) || (p.WriteSpin? && op.QuitLock?)
    ensures Inv(Begin(s, t, p, op))
  {
    hide Inv, LockInv;
    Facts(s, t);
    BeginInv(s.lock, Phases(s.threads), t, p);
    StepQuiet(s, t, s.threads[t].(phase := p, op := op), s.lock);
  }

  /** stm_update makes its new copy before it asks for the lock. */
  lemma UpdateStep(s: Sys, t: nat, c: nat, msg: nat)
    requires Inv(s) && t in s.threads && s.threads[t].op.Rest? && c !in s.copies && c !in s.freed
    ensures Inv(Begin(s.(copies := s.copies[c := Copy(1, msg)]), t, WriteSpin, WriteLock(c)))
  {
    hide Counted, LockInv;
    var x := s.threads[t].(phase := WriteSpin, op := WriteLock(c));
    assert InPhase(s.threads[t]);
    CopyLive(s);
    BeginInv(s.lock, Phases(s.threads), t, WriteSpin);
    CountedNew(s.copies, s.copy, s.threads, t, x, c, msg);
    Assemble(s, Put(s.(copies := s.copies[c := Copy(1, msg)]), t, x), t, x);
  }

  lemma CopyLive(s: Sys)
    requires Inv(s)
    ensures s.copy.To? && !AnyGiving(s.threads) ==> s.copy.c in s.copies
  {
  }

  lemma NewThreadStep(s: Sys, t: nat)
    requires Inv(s) && t !in s.threads
    ensures Inv(Put(s, t, Thread(Out, Rest, Null)))
  {
    hide LockInv, Counted;
    var x := Thread(Out, Rest, Null);
    PhasesPut(s.threads, t, x);
    BeginInv(s.lock, Phases(s.threads), t, Out);
    NewThreadCounted(s.copies, s.copy, s.threads, t);
  }

  lemma NewThreadCounted(copies: map<nat, Copy>, copy: Ref, ts: map<nat, Thread>, t: nat)
    requires Counted(copies, copy, ts) && t !in ts
    ensures Counted(copies, copy, ts[t := Thread(Out, Rest, Null)])
  {
    hide Holders, Keepers, Giving, Holds, Frees;
    var x := Thread(Out, Rest, Null);
    var ts2 := ts[t := x];
    NotGivingRest(x);
    SameGivers(ts, t, x);
    forall c | c in copies ensures copies[c].refs == |Holders(ts2, c)| + |Keepers(ts2, c)| + One(Share(copy, ts2, c)) {
      HoldersPut(ts, t, x, c);
      KeepersPut(ts, t, x, c);
    }
    forall c | c in copies && copies[c].refs == 0 ensures exists u :: u in ts2 && c in Frees(ts2[u].op) {
      var u :| u in ts && c in Frees(ts[u].op);
      assert u in ts2 && c in Frees(ts2[u].op);
    }
  }

  lemma SameGivers(ts: map<nat, Thread>, t: nat, x: Thread)
    requires t !in ts && !Giving(x.op)
    ensures AnyGiving(ts[t := x]) == AnyGiving(ts)
  {
    hide Giving;
    GivingPut(ts, t, x);
  }

  lemma NotGivingRest(x: Thread)
    requires x.op.Rest?
    ensures !Giving(x.op) && Holds(x.op) == {} && Frees(x.op) == {}
  {
  }

  lemma StepInv(s: Sys, e: Label)
    requires Inv(s)
    ensures Inv(Step(s, e))
  {
    hide Inv, Advance;
    match e
    case NewThread(t) => if t !in s.threads { NewThreadStep(s, t); }
    case Read(t) => if t in s.threads && s.threads[t].op.Rest? { BeginStep(s, t, ReadSpin, ReadLock); }
    case DeleteReader(t) => if t in s.threads && s.threads[t].op.Rest? { BeginStep(s, t, Out, DropLast); }
    case Update(t, c, msg) =>
      if c !in s.copies && c !in s.freed && t in s.threads && s.threads[t].op.Rest? { UpdateStep(s, t, c, msg); }
    case Quit(t) => if t in s.threads && s.threads[t].op.Rest? { BeginStep(s, t, WriteSpin, QuitLock); }
    case Go(t) => if t in s.threads { AdvanceInv(s, t); }
  }

  lemma {:induction false} RunInv(s: Sys, es: seq<Label>)
    requires Inv(s)
    ensures Inv(Run(s, es))
    decreases |es|
  {
    hide Inv, Step;
    if es != [] {
      StepInv(s, es[0]);
      RunInv(Step(s, es[0]), es[1..]);
    }
  }

  lemma InitInv(msg: nat)
    ensures Inv(INIT(msg))
  {
    var s := INIT(msg);
    assert Phases(s.threads) == map[];
    assert Added(map[]) == {};
    assert Holders(s.threads, 0) == {} && Keepers(s.threads, 0) == {};
  }

  /** No operation of any run touches a freed snapshot, and the assertions on the counts hold. */
  lemma NeverDangles(msg: nat, es: seq<Label>, t: nat)
    requires t in Run(INIT(msg), es).threads
    ensures var s := Run(INIT(msg), es); var x := s.threads[t];
      && Touches(s, x)
      && (x.op.Inc? && x.op.ret.To? ==> s.copies[x.op.ret.c].refs > 0)
      && (x.last.To? ==> x.last.c in s.copies && x.last.c !in s.freed)
  {
    hide LockInv, Counted;
    InitInv(msg);
    RunInv(INIT(msg), es);
    var s := Run(INIT(msg), es);
    AdvanceInv(s, t);
    OwnLive(s, t);
    if s.threads[t].op.Inc? && s.threads[t].op.ret.To? { StepInc(s, t, s.threads[t].op.ret.c); }
  }

  /** Each snapshot is freed at most once, and only when nobody holds it. */
  lemma FreedOnce(msg: nat, es: seq<Label>, c: nat)
    requires c in Run(INIT(msg), es).freed
    ensures var s := Run(INIT(msg), es);
      && s.freed[c] == 1 && c !in s.copies
      && forall t :: t in s.threads ==> c !in Holds(s.threads[t].op) && s.threads[t].last != To(c)
  {
    hide LockInv;
    InitInv(msg);
    RunInv(INIT(msg), es);
  }

  /** At rest, a snapshot lives exactly as long as it is the object's or some reader's last. */
  lemma NoneLeaks(msg: nat, es: seq<Label>, c: nat)
    requires var s := Run(INIT(msg), es); c in s.copies && forall t :: t in s.threads ==> s.threads[t].op.Rest?
    ensures var s := Run(INIT(msg), es); s.copy == To(c) || exists t :: t in s.threads && s.threads[t].last == To(c)
  {
    hide LockInv;
    InitInv(msg);
    RunInv(INIT(msg), es);
    var s := Run(INIT(msg), es);
    assert Holders(s.threads, c) == {};
    assert forall t :: t in s.threads ==> c !in Frees(s.threads[t].op);
    if Keepers(s.threads, c) != {} {
      var t :| t in Keepers(s.threads, c);
      assert s.threads[t].last == To(c);
    }
  }
}
