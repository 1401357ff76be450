/**
 * Versioned snapshots under the reader/writer lock (lualib-src/lua-stm.c), one atomic operation at
 * a time. A thread is one reader or writer box; the shared object itself lives throughout.
 */
module Stm {
  import opened Counting
  import opened RwLock

  datatype Ref = Null | To(c: nat)

  /** A stm_copy: its reference count and its message. */
  datatype Copy = Copy(refs: int, msg: nat)

  /** What a thread does next. */
  datatype Op =
    | Rest
    // lread
    | ReadLock            // stm_copy: rwlock_rlock
    | Load                // ret = obj->copy
    | Inc(ret: Ref)       // ATOM_FINC
    | ReadUnlock(ret: Ref)
    | Compare(ret: Ref)   // copy == box->lastcopy
    | DropSame(ret: Ref)  // stm_releasecopy(copy)
    | Replace(ret: Ref)   // stm_releasecopy(box->lastcopy); box->lastcopy = copy
    // ldeletereader
    | DropLast            // stm_releasecopy(box->lastcopy)
    // stm_update
    | WriteLock(c: nat)   // rwlock_wlock, with the new copy in hand
    | Swap(c: nat)
    | WriteUnlock(was: Ref)
    | DropOld(was: Ref)   // stm_releasecopy(oldcopy)
    // stm_release
    | QuitLock
    | QuitDrop            // stm_releasecopy(obj->copy), under the lock
    | QuitClear           // obj->copy = NULL
    | QuitUnlock
    // the second half of stm_releasecopy: the count went to zero
    | Free(dead: nat, next: After)

  datatype After = ToRest | ToReplaced(ret: Ref) | ToQuitClear

  datatype Thread = Thread(phase: Phase, op: Op, last: Ref)

  datatype Sys = Sys(lock: Lock, copy: Ref, copies: map<nat, Copy>, threads: map<nat, Thread>, freed: map<nat, nat>)

  datatype Label =
    | NewThread(t: nat)
    | Read(t: nat)
    | DeleteReader(t: nat)
    | Update(t: nat, c: nat, msg: nat)  // c names the new copy
    | Quit(t: nat)
    | Go(t: nat)

  function INIT(msg: nat): Sys { Sys(Lock(false, 0), To(0), map[0 := Copy(1, msg)], map[], map[]) }

  function Put(s: Sys, t: nat, x: Thread): Sys { s.(threads := s.threads[t := x]) }

  /** The first half of stm_releasecopy: ATOM_DEC, and a duty to free the copy if it was the last. */
  function Drop(s: Sys, t: nat, x: Thread, r: Ref, next: After): Sys
    requires r.To? ==> r.c in s.copies
  {
    if r.Null? then Put(s, t, Resume(x, next))
    else
      var k := s.copies[r.c];
      Put(s.(copies := s.copies[r.c := k.(refs := k.refs - 1)]), t,
          if k.refs == 1 then x.(op := Free(r.c, next)) else Resume(x, next))
  }

  function Resume(x: Thread, next: After): Thread {
    match next
    case ToRest => x.(op := Rest)
    case ToReplaced(ret) => x.(op := Rest, last := ret)
    case ToQuitClear => x.(op := QuitClear)
  }

  /** What the next operation dereferences is there. */
  predicate Touches(s: Sys, x: Thread) {
    match x.op
    case Inc(ret) => ret.To? ==> ret.c in s.copies
    case DropSame(ret) => ret.To? ==> ret.c in s.copies
    case Replace(_) => x.last.To? ==> x.last.c in s.copies
    case DropLast => x.last.To? ==> x.last.c in s.copies
    case DropOld(was) => was.To? ==> was.c in s.copies
    case QuitDrop => s.copy.To? ==> s.copy.c in s.copies
    case Free(dead, _) => dead in s.copies
    case _ => true
  }

  function Advance(s: Sys, t: nat): Sys
    requires t in s.threads && Touches(s, s.threads[t])
  {
    var x := s.threads[t];
    match x.op
    case Rest => s
    case ReadLock => Locked(s, t, x, Load)
    case Load => Put(s, t, x.(op := Inc(s.copy)))
    case Inc(ret) =>
      if ret.Null? then Put(s, t, x.(op := ReadUnlock(ret)))
      else
        var k := s.copies[ret.c];
        Put(s.(copies := s.copies[ret.c := k.(refs := k.refs + 1)]), t, x.(op := ReadUnlock(ret)))
    case ReadUnlock(ret) => Unlocked(s, t, x, Compare(ret))
    case Compare(ret) => Put(s, t, x.(op := if ret == x.last then DropSame(ret) else Replace(ret)))
    case DropSame(ret) => Drop(s, t, x, ret, ToRest)
    case Replace(ret) => Drop(s, t, x.(last := Null), x.last, ToReplaced(ret))
    case DropLast => Drop(s, t, x.(last := Null), x.last, ToRest)
    case WriteLock(c) => Locked(s, t, x, Swap(c))
    case Swap(c) => Put(s.(copy := To(c)), t, x.(op := WriteUnlock(s.copy)))
    case WriteUnlock(was) => Unlocked(s, t, x, DropOld(was))
    case DropOld(was) => Drop(s, t, x, was, ToRest)
    case QuitLock => Locked(s, t, x, QuitDrop)
    case QuitDrop => Drop(s, t, x, s.copy, ToQuitClear)
    case QuitClear => Put(s.(copy := Null), t, x.(op := QuitUnlock))
    case QuitUnlock => Unlocked(s, t, x, Rest)
    case Free(dead, next) =>
      Put(s.(copies := s.copies - {dead}, freed := s.freed[dead := 1 + (if dead in s.freed then s.freed[dead] else 0)]), t, Resume(x, next))
  }

  /** One operation of rwlock_rlock or rwlock_wlock; `op` follows once the lock is held. */
  function Locked(s: Sys, t: nat, x: Thread, op: Op): Sys {
    var a := Acquire(s.lock, x.phase);
    Put(s.(lock := a.0), t, x.(phase := a.1, op := if a.1.Reading? || a.1.Writing? then op else x.op))
  }

  function Unlocked(s: Sys, t: nat, x: Thread, op: Op): Sys {
    var a := Release(s.lock, x.phase);
    Put(s.(lock := a.0), t, x.(phase := a.1, op := op))
  }

  /** A label that is not enabled changes nothing. */
  function Step(s: Sys, e: Label): Sys {
    match e
    case NewThread(t) => if t in s.threads then s else Put(s, t, Thread(Out, Rest, Null))
    case Read(t) => Begin(s, t, ReadSpin, ReadLock)
    case DeleteReader(t) => Begin(s, t, Out, DropLast)
    case Update(t, c, msg) =>
      if c in s.copies || c in s.freed || !(t in s.threads && s.threads[t].op.Rest?) then s
      else Begin(s.(copies := s.copies[c := Copy(1, msg)]), t, WriteSpin, WriteLock(c))
    case Quit(t) => Begin(s, t, WriteSpin, QuitLock)
    case Go(t) => if t in s.threads && Touches(s, s.threads[t]) then Advance(s, t) else s
  }

  function Begin(s: Sys, t: nat, p: Phase, op: Op): Sys {
    if t in s.threads && s.threads[t].op.Rest? then Put(s, t, s.threads[t].(phase := p, op := op)) else s
  }

  function Run(s: Sys, es: seq<Label>): Sys
    decreases |es|
  {
    if es == [] then s else Run(Step(s, es[0]), es[1..])
  }

  // ---------------------------------------------------------------- the invariant

  function Phases(ts: map<nat, Thread>): map<nat, Phase> { map t | t in ts :: ts[t].phase }

  /** The copy an operation has a counted reference to, besides box->lastcopy. */
  function Holds(op: Op): set<nat> {
    match op
    case ReadUnlock(ret) => RefSet(ret)
    case Compare(ret) => RefSet(ret)
    case DropSame(ret) => RefSet(ret)
    case Replace(ret) => RefSet(ret)
    case WriteLock(c) => {c}
    case Swap(c) => {c}
    case WriteUnlock(was) => RefSet(was)
    case DropOld(was) => RefSet(was)
    case Free(_, next) => if next.ToReplaced? then RefSet(next.ret) else {}
    case _ => {}
  }

  function RefSet(r: Ref): set<nat> { if r.To? then {r.c} else {} }

  function Frees(op: Op): set<nat> { if op.Free? then {op.dead} else {} }

  function Holders(ts: map<nat, Thread>, c: nat): set<nat> { set t | t in ts && c in Holds(ts[t].op) }

  function Keepers(ts: map<nat, Thread>, c: nat): set<nat> { set t | t in ts && ts[t].last == To(c) }

  /** The object has given up its reference to its copy, though not yet the pointer. */
  predicate Giving(op: Op) { op.QuitClear? || (op.Free? && op.next.ToQuitClear?) }

  ghost predicate AnyGiving(ts: map<nat, Thread>) { exists t :: t in ts && Giving(ts[t].op) }

  /** Lock phases and operations go together. */
  predicate InPhase(x: Thread) {
    match x.op
    case ReadLock => x.phase.ReadSpin? || x.phase.ReadAdd? || x.phase.ReadCheck? || x.phase.ReadUndo?
    case Load => x.phase.Reading?
    case Inc(_) => x.phase.Reading?
    case ReadUnlock(_) => x.phase.Reading?
    case WriteLock(_) => x.phase.WriteSpin? || x.phase.WriteDrain?
    case Swap(_) => x.phase.Writing?
    case WriteUnlock(_) => x.phase.Writing?
    case QuitLock => x.phase.WriteSpin? || x.phase.WriteDrain?
    case QuitDrop => x.phase.Writing?
    case QuitClear => x.phase.Writing?
    case QuitUnlock => x.phase.Writing?
    case Free(_, next) => (if next.ToQuitClear? then x.phase.Writing? else x.phase.Out?) && (next.ToReplaced? ==> x.last.Null?)
    case _ => x.phase.Out?
  }

  ghost predicate Share(copy: Ref, ts: map<nat, Thread>, c: nat) { copy == To(c) && !AnyGiving(ts) }

  /** Every copy's count is the number of its holders; one that has none is about to be freed, once. */
  ghost predicate Counted(copies: map<nat, Copy>, copy: Ref, ts: map<nat, Thread>) {
    && (forall c :: c in copies ==> copies[c].refs == |Holders(ts, c)| + |Keepers(ts, c)| + One(Share(copy, ts, c)))
    && (forall t, c :: t in ts && c in Holds(ts[t].op) ==> c in copies)
    && (forall t, c :: t in ts && ts[t].last == To(c) ==> c in copies)
    && (copy.To? && !AnyGiving(ts) ==> copy.c in copies)
    && (forall t, c :: t in ts && c in Frees(ts[t].op) ==> c in copies && copies[c].refs == 0)
    && (forall t, u, c :: t in ts && u in ts && c in Frees(ts[t].op) && c in Frees(ts[u].op) ==> t == u)
    && (forall c :: c in copies && copies[c].refs == 0 ==> exists t :: t in ts && c in Frees(ts[t].op))
  }

  ghost predicate Inv(s: Sys) {
    && LockInv(s.lock, Phases(s.threads))
    && (forall t :: t in s.threads ==> InPhase(s.threads[t]))
    && (forall t, ret :: t in s.threads && s.threads[t].op == Inc(ret) ==> ret == s.copy)
    && Counted(s.copies, s.copy, s.threads)
    && (forall c :: c in s.freed ==> c !in s.copies && s.freed[c] == 1)
    && (forall c :: c in s.copies ==> c !in s.freed)
  }

  // ---------------------------------------------------------------- counting

  lemma HoldersPut(ts: map<nat, Thread>, t: nat, x: Thread, c: nat)
    ensures |Holders(ts[t := x], c)| + One(t in ts && c in Holds(ts[t].op)) == |Holders(ts, c)| + One(c in Holds(x.op))
  {
    hide Holds;
    assert Holders(ts[t := x], c) - {t} == Holders(ts, c) - {t};
    SizeChange(Holders(ts[t := x], c), Holders(ts, c), t);
  }

  lemma KeepersPut(ts: map<nat, Thread>, t: nat, x: Thread, c: nat)
    ensures |Keepers(ts[t := x], c)| + One(t in ts && ts[t].last == To(c)) == |Keepers(ts, c)| + One(x.last == To(c))
  {
    assert Keepers(ts[t := x], c) - {t} == Keepers(ts, c) - {t};
    SizeChange(Keepers(ts[t := x], c), Keepers(ts, c), t);
  }

  lemma GivingPut(ts: map<nat, Thread>, t: nat, x: Thread)
    ensures AnyGiving(ts[t := x]) <==> Giving(x.op) || exists u :: u in ts && u != t && Giving(ts[u].op)
  {
    var ts2 := ts[t := x];
    if Giving(x.op) { assert t in ts2 && Giving(ts2[t].op); }
    if u :| u in ts && u != t && Giving(ts[u].op) { assert u in ts2 && Giving(ts2[u].op); }
  }

  lemma PhasesPut(ts: map<nat, Thread>, t: nat, x: Thread)
    ensures Phases(ts[t := x]) == Phases(ts)[t := x.phase]
  {
  }

  /** A thread that writes is alone in giving up the object's reference. */
  lemma GiverWrites(s: Sys, t: nat, u: nat)
    requires Inv(s) && t in s.threads && u in s.threads && s.threads[t].phase.Writing?
    ensures t != u ==> !Giving(s.threads[u].op) && !s.threads[u].phase.Writing? && !s.threads[u].phase.Reading?
  {
    hide Counted, Added, AnySet;
    var ps := Phases(s.threads);
    assert ps[t] == s.threads[t].phase && ps[u] == s.threads[u].phase;
    assert InPhase(s.threads[u]);
  }

  /** While a thread reads nobody writes. */
  lemma ReaderSafe(s: Sys, t: nat)
    requires Inv(s) && t in s.threads && s.threads[t].phase.Reading?
    ensures !AnyGiving(s.threads)
    ensures forall u :: u in s.threads ==> !s.threads[u].phase.Writing?
  {
    hide Counted, Added, AnySet;
    forall u | u in s.threads ensures !Giving(s.threads[u].op) && !s.threads[u].phase.Writing? {
      if s.threads[u].phase.Writing? { GiverWrites(s, u, t); }
      assert InPhase(s.threads[u]);
    }
  }
}
