/** The spinning reader/writer lock of skynet-src/rwlock.h, one atomic operation at a time. */
module RwLock {
  import opened Counting

  datatype Lock = Lock(write: bool, read: int)

  /** Where a thread is in rwlock_rlock or rwlock_wlock, or between lock and unlock. */
  datatype Phase =
    | Out
    | ReadSpin   // while (lock->write)
    | ReadAdd    // seen no writer; about to add to lock->read
    | ReadCheck  // added; about to look at lock->write again
    | ReadUndo   // a writer came; about to subtract again
    | Reading
    | WriteSpin  // test-and-set of lock->write
    | WriteDrain // while (lock->read)
    | Writing

  /** The next operation of a thread that is acquiring the lock. */
  function Acquire(l: Lock, p: Phase): (Lock, Phase) {
    match p
    case ReadSpin => (l, if l.write then ReadSpin else ReadAdd)
    case ReadAdd => (l.(read := l.read + 1), ReadCheck)
    case ReadCheck => (l, if l.write then ReadUndo else Reading)
    case ReadUndo => (l.(read := l.read - 1), ReadSpin)
    case WriteSpin => (l.(write := true), if l.write then WriteSpin else WriteDrain)
    case WriteDrain => (l, if l.read != 0 then WriteDrain else Writing)
    case _ => (l, p)
  }

  /** rwlock_runlock, rwlock_wunlock */
  function Release(l: Lock, p: Phase): (Lock, Phase) {
    match p
    case Reading => (l.(read := l.read - 1), Out)
    case Writing => (l.(write := false), Out)
    case _ => (l, p)
  }

  predicate HasAdded(p: Phase) { p.ReadCheck? || p.ReadUndo? || p.Reading? }

  predicate HasSet(p: Phase) { p.WriteDrain? || p.Writing? }

  function Added(ps: map<nat, Phase>): set<nat> { set t | t in ps && HasAdded(ps[t]) }

  ghost predicate AnySet(ps: map<nat, Phase>) { exists t :: t in ps && HasSet(ps[t]) }

  /** The counter counts, the flag has one owner, and a writer inside excludes readers inside. */
  ghost predicate LockInv(l: Lock, ps: map<nat, Phase>) {
    && l.read == |Added(ps)|
    && (l.write <==> AnySet(ps))
    && (forall t, u :: t in ps && u in ps && HasSet(ps[t]) && HasSet(ps[u]) ==> t == u)
    && (forall t, u :: t in ps && u in ps && ps[t].Writing? ==> !ps[u].Reading?)
  }

  lemma AddedPut(ps: map<nat, Phase>, t: nat, p: Phase)
    ensures |Added(ps[t := p])| + One(t in ps && HasAdded(ps[t])) == |Added(ps)| + One(HasAdded(p))
  {
    assert Added(ps[t := p]) - {t} == Added(ps) - {t};
    SizeChange(Added(ps[t := p]), Added(ps), t);
  }

  /** The flag after thread `t` moved on. */
  lemma SetPut(ps: map<nat, Phase>, t: nat, p: Phase)
    ensures AnySet(ps[t := p]) <==> HasSet(p) || exists u :: u in ps && u != t && HasSet(ps[u])
  {
    var ps2 := ps[t := p];
    if HasSet(p) { assert t in ps2 && HasSet(ps2[t]); }
    if u :| u in ps && u != t && HasSet(ps[u]) { assert u in ps2 && HasSet(ps2[u]); }
  }

  lemma NoneAdded(ps: map<nat, Phase>, u: nat)
    requires |Added(ps)| == 0 && u in ps
    ensures !HasAdded(ps[u])
  {
    assert u !in Added(ps);
  }

  /** A thread that is doing nothing begins to acquire the lock, or appears. */
  lemma BeginInv(l: Lock, ps: map<nat, Phase>, t: nat, p: Phase)
    requires LockInv(l, ps) && (t in ps ==> ps[t].Out?) && (p.Out? || p.ReadSpin? || p.WriteSpin?)
    ensures LockInv(l, ps[t := p])
  {
    hide Added;
    AddedPut(ps, t, p);
    SetPut(ps, t, p);
  }

  /** Every operation of every thread keeps the invariant. */
  lemma AcquireInv(l: Lock, ps: map<nat, Phase>, t: nat)
    requires LockInv(l, ps) && t in ps
    ensures var a := Acquire(l, ps[t]); LockInv(a.0, ps[t := a.1])
  {
    hide Added;
    var a := Acquire(l, ps[t]);
    AddedPut(ps, t, a.1);
    SetPut(ps, t, a.1);
    if ps[t].WriteDrain? && l.read == 0 {
      forall u | u in ps ensures !HasAdded(ps[u]) { NoneAdded(ps, u); }
    }
  }

  lemma ReleaseInv(l: Lock, ps: map<nat, Phase>, t: nat)
    requires LockInv(l, ps) && t in ps
    ensures var a := Release(l, ps[t]); LockInv(a.0, ps[t := a.1])
  {
    hide Added;
    var a := Release(l, ps[t]);
    AddedPut(ps, t, a.1);
    SetPut(ps, t, a.1);
  }

  // ---------------------------------------------------------------- runs of any number of threads

  datatype LockEvent = Start(t: nat) | WantRead(t: nat) | WantWrite(t: nat) | Go(t: nat) | Unlock(t: nat)

  datatype LockState = LockState(lock: Lock, threads: map<nat, Phase>)

  const LOCK_INIT := LockState(Lock(false, 0), map[])

  function LockStep(s: LockState, e: LockEvent): LockState {
    match e
    case Start(t) => if t in s.threads then s else s.(threads := s.threads[t := Out])
    case WantRead(t) => if t in s.threads && s.threads[t].Out? then s.(threads := s.threads[t := ReadSpin]) else s
    case WantWrite(t) => if t in s.threads && s.threads[t].Out? then s.(threads := s.threads[t := WriteSpin]) else s
    case Go(t) => if t in s.threads then var a := Acquire(s.lock, s.threads[t]); LockState(a.0, s.threads[t := a.1]) else s
    case Unlock(t) => if t in s.threads then var a := Release(s.lock, s.threads[t]); LockState(a.0, s.threads[t := a.1]) else s
  }

  function LockRun(s: LockState, es: seq<LockEvent>): LockState
    decreases |es|
  {
    if es == [] then s else LockRun(LockStep(s, es[0]), es[1..])
  }

  lemma {:induction false} LockRunInv(s: LockState, es: seq<LockEvent>)
    requires LockInv(s.lock, s.threads)
    ensures LockInv(LockRun(s, es).lock, LockRun(s, es).threads)
    decreases |es|
  {
    hide LockInv, Acquire, Release;
    if es != [] {
      var s2 := LockStep(s, es[0]);
      match es[0] {
        case Start(t) => if t !in s.threads { BeginInv(s.lock, s.threads, t, Out); }
        case WantRead(t) => if t in s.threads && s.threads[t].Out? { BeginInv(s.lock, s.threads, t, ReadSpin); }
        case WantWrite(t) => if t in s.threads && s.threads[t].Out? { BeginInv(s.lock, s.threads, t, WriteSpin); }
        case Go(t) => if t in s.threads { AcquireInv(s.lock, s.threads, t); }
        case Unlock(t) => if t in s.threads { ReleaseInv(s.lock, s.threads, t); }
      }
      LockRunInv(s2, es[1..]);
    }
  }

  lemma LockInitInv()
    ensures LockInv(LOCK_INIT.lock, LOCK_INIT.threads)
  {
    assert Added(map[]) == {};
  }

  /** In every run a writer is alone: no reader and no other writer is inside with it. */
  lemma Exclusion(es: seq<LockEvent>, w: nat, u: nat)
    requires var s := LockRun(LOCK_INIT, es); w in s.threads && u in s.threads && s.threads[w].Writing? && w != u
    ensures !LockRun(LOCK_INIT, es).threads[u].Writing? && !LockRun(LOCK_INIT, es).threads[u].Reading?
  {
    LockInitInv();
    LockRunInv(LOCK_INIT, es);
  }

  /** When no thread is in or after the lock, the lock is as it was at first. */
  lemma Balanced(es: seq<LockEvent>)
    requires var s := LockRun(LOCK_INIT, es); forall t :: t in s.threads ==> s.threads[t].Out?
    ensures LockRun(LOCK_INIT, es).lock == Lock(false, 0)
  {
    LockInitInv();
    LockRunInv(LOCK_INIT, es);
    assert Added(LockRun(LOCK_INIT, es).threads) == {};
  }
}
