/**
 * The incremental collector of 3rd/lua/lgc.c over strong tables, closures, prototypes, userdata,
 * strings and threads, and the writes of the mutator that may happen between its steps.
 */
module GcCollector {
  import opened GcHeap
  import opened GcInvariant
  import opened GcWrites

  class Collector {
    var objs: Heap
    var allgc: seq<nat>
    const mainthread: nat
    var gray: seq<nat>
    var grayagain: seq<nat>
    var gcstate: State
    var currentwhite: Color
    var sweepgc: Cursor
    var registry: nat
    var mt: seq<nat>          // metatables of the basic types
    var running: nat          // the thread L that runs the collector
    const sweepMax: nat       // GCSWEEPMAX
    ghost var start: set<nat> // reachable when the cycle began, or made since

    ghost function Roots(): set<nat>
      reads this
    {
      {mainthread, registry, running} + set m | m in mt
    }

    ghost predicate Valid()
      reads this
    {
      && sweepMax > 0
      && (currentwhite.White0? || currentwhite.White1?)
      && Base(objs, allgc, mainthread)
      && running in objs && objs[running].kind.Thread?
      && LiveClosed(objs, Roots(), currentwhite)
      && Phase(gcstate, objs, allgc, mainthread, Roots(), currentwhite, gray, grayagain, sweepgc, start)
    }

    /** A fresh state: the main thread and the registry. */
    constructor (sweepMax: nat)
      requires sweepMax > 0
      ensures Valid() && gcstate.Pause? && fresh(this)
    {
      this.sweepMax := sweepMax;
      mainthread, registry, running, mt := 0, 1, 0, [];
      objs := map[0 := Obj(Thread, White0, false, None, []), 1 := Obj(Table, White0, false, None, [])];
      allgc := [1];
      gray, grayagain, gcstate, currentwhite, sweepgc, start := [], [], Pause, White0, Null, {};
    }

    // -------------------------------------------------------------- marking

    /** reallymarkobject */
    method MarkObject(o: nat, ghost s: set<nat>)
      requires o in objs && IsWhite(objs[o]) && (o in s || objs[o].shared) && Ready(objs, s)
      modifies this`objs, this`gray
      ensures Marks(old(objs), old(gray), objs, gray, s) && Seen(objs, o)
      decreases Whites(objs), 1
    {
      MarksNothing(objs, gray, s);
      if objs[o].shared { return; }
      ghost var h := objs;
      match objs[o].kind
      case Leaf =>
        assert Shaped(objs[o]);
        MarksLeaf(objs, gray, o, s);
        objs := objs[o := objs[o].(color := Gray)];
        objs := objs[o := objs[o].(color := Black)];
        assert objs == h[o := h[o].(color := Black)];
      case Userdata =>
        MarkUserdata(o, s);
      case _ =>
        assert Traversed(objs[o].kind);
        MarksLinked(objs, gray, o, s);
        objs := objs[o := objs[o].(color := Gray)];
        gray := [o] + gray;
    }

    /**
     * The case of a userdata: its metatable, itself, its user value. The last call stands for the
     * jump back to the start.
     */
    method MarkUserdata(o: nat, ghost s: set<nat>)
      requires o in objs && Unmarked(objs[o]) && o in s && objs[o].kind.Userdata? && Ready(objs, s)
      modifies this`objs, this`gray
      ensures Marks(old(objs), old(gray), objs, gray, s) && Seen(objs, o)
      decreases Whites(objs), 0
    {
      hide Marks, Whites, Ready, Refs, Clean;
      ghost var h, g := objs, gray;
      GrayUserdata(objs, o, s);
      objs := objs[o := objs[o].(color := Gray)];
      MarkRef(objs[o].meta, s);
      ghost var h2, g2 := objs, gray;
      BlackUserdata(h, o, g, h2, g2, s);
      objs := objs[o := objs[o].(color := Black)];
      MarkRef(UserValue(objs[o]), s);
      MarkedUserdata(h, o, g, h2, g2, objs, gray, s);
    }

    /** markobjectN and markvalue: mark a reference that may be missing. */
    method MarkRef(r: Ref, ghost s: set<nat>)
      requires r.To? ==> r.id in objs && (r.id in s || objs[r.id].shared)
      requires Ready(objs, s)
      modifies this`objs, this`gray
      ensures Marks(old(objs), old(gray), objs, gray, s) && (r.To? ==> Seen(objs, r.id))
      decreases Whites(objs), 2
    {
      MarksNothing(objs, gray, s);
      if r.To? && IsWhite(objs[r.id]) { MarkObject(r.id, s); }
    }

    /** The traverse functions mark every reference of an object in turn. */
    method Traverse(refs: seq<nat>, ghost s: set<nat>)
      requires Ready(objs, s) && forall r :: r in refs ==> r in objs && (r in s || objs[r].shared)
      modifies this`objs, this`gray
      ensures Marks(old(objs), old(gray), objs, gray, s) && forall r :: r in refs ==> Seen(objs, r)
    {
      hide Marks, Ready;
      MarksNothing(objs, gray, s);
      var i := 0;
      while i < |refs|
        invariant 0 <= i <= |refs|
        invariant Marks(old(objs), old(gray), objs, gray, s)
        invariant forall r :: r in refs[..i] ==> Seen(objs, r)
      {
        TraverseNext(refs, i, old(objs), old(gray), s);
        i := i + 1;
      }
      assert refs[..i] == refs;
    }

    method TraverseNext(refs: seq<nat>, i: nat, ghost h: Heap, ghost g: seq<nat>, ghost s: set<nat>)
      requires i < |refs| && Ready(h, s) && forall r :: r in refs ==> r in h && (r in s || h[r].shared)
      requires Marks(h, g, objs, gray, s) && forall r :: r in refs[..i] ==> Seen(objs, r)
      modifies this`objs, this`gray
      ensures Marks(h, g, objs, gray, s) && forall r :: r in refs[..i + 1] ==> Seen(objs, r)
    {
      hide Ready, Seen, Fresh;
      ghost var h1, g1 := objs, gray;
      ReadyMarks(h, g, h1, g1, s);
      assert Recoloured(h[refs[i]], objs, refs[i], s);
      MarkRef(To(refs[i]), s);
      MarksTrans(h, g, h1, g1, objs, gray, s);
      forall r | r in refs[..i + 1] ensures Seen(objs, r) {
        if r in refs[..i] { SeenStays(h1, g1, objs, gray, s, r); }
      }
    }

    /** propagatemark: traverse one gray object, turning it to black, except for threads. */
    method PropagateMark(ghost s: set<nat>)
      requires gray != [] && gray[0] in objs && objs[gray[0]].color.Gray? && Traversed(objs[gray[0]].kind)
      requires Ready(objs, s) && (gray[0] in s || objs[gray[0]].shared)
      modifies this`objs, this`gray, this`grayagain
      ensures gray[0..] == gray
      ensures var o := old(gray[0]);
        && Marks(Popped(old(objs), o), old(gray[1..]), objs, gray, s) && o in objs && Clean(objs, objs[o])
        && grayagain == if old(objs[o].kind.Thread?) then [o] + old(grayagain) else old(grayagain)
    {
      hide Refs, Fresh, Ready;
      var o := gray[0];
      ghost var h := objs;
      objs := objs[o := objs[o].(color := Black)];
      gray := gray[1..];
      if objs[o].kind.Thread? {
        grayagain := [o] + grayagain;
        objs := objs[o := objs[o].(color := Gray)];
      }
      assert objs == Popped(h, o);
      TraverseReady(h, o, s);
      ghost var h1 := objs;
      Traverse(Refs(objs[o]), s);
      assert Recoloured(h1[o], objs, o, s);
      RefsKept(h1[o], objs[o]);
    }

    ghost predicate InMarking(rest: seq<nat>, done: set<nat>)
      reads this
    {
      && (currentwhite.White0? || currentwhite.White1?)
      && Marking(objs, allgc, mainthread, Roots(), currentwhite, gray, rest, done, start)
    }

    /**
     * One round of propagateall; `again` tells whether the mutator runs before the cycle's end.
     * `h0` is the heap of an earlier moment and `seen` are objects already marked.
     */
    method PropagateOne(ghost rest: seq<nat>, ghost done: set<nat>, ghost again: bool, ghost h0: Heap, ghost seen: set<nat>)
      returns (ghost rest2: seq<nat>, ghost done2: set<nat>)
      requires InMarking(rest, done) && gray != [] && Kept(h0, objs, Roots()) && AllSeen(objs, seen)
      modifies this`objs, this`gray, this`grayagain
      ensures InMarking(rest2, done2) && (again ==> done2 == done) && (!again ==> rest2 == rest)
      ensures again && rest == old(grayagain) ==> rest2 == grayagain
      ensures Whites(objs) < old(Whites(objs)) || (Whites(objs) == old(Whites(objs)) && |gray| < |old(gray)|)
      ensures Kept(h0, objs, Roots()) && AllSeen(objs, seen)
    {
      hide Marking, Marks, Ready, Whites, Kept, AllSeen;
      ghost var h, g := objs, gray;
      NextGray(h, allgc, mainthread, Roots(), currentwhite, g, rest, done, start);
      PropagateMark(start);
      PropagateMarking(h, allgc, mainthread, Roots(), currentwhite, g, rest, done, objs, gray, start, again);
      PropagateKeeps(h0, h, g, objs, gray, start, Roots(), seen);
      rest2 := if h[g[0]].kind.Thread? && again then [g[0]] + rest else rest;
      done2 := if h[g[0]].kind.Thread? && !again then done + {g[0]} else done;
    }

    /** propagateall, outside the atomic phase proper. */
    method PropagateAll()
      requires InMarking(grayagain, {})
      modifies this`objs, this`gray, this`grayagain
      ensures InMarking(grayagain, {}) && gray == [] && Kept(old(objs), objs, Roots())
    {
      hide Marking, Whites, Kept;
      GraphSame(objs, Roots());
      while gray != []
        invariant InMarking(grayagain, {}) && Kept(old(objs), objs, Roots())
        decreases Whites(objs), |gray|
      {
        ghost var rest, done := PropagateOne(grayagain, {}, true, old(objs), {});
      }
    }

    /** propagateall inside the atomic phase, where a traversed thread is done with. */
    method PropagateAllAtomic(ghost rest: seq<nat>, ghost done0: set<nat>, ghost h0: Heap, ghost seen: set<nat>) returns (ghost done: set<nat>)
      requires InMarking(rest, done0) && Kept(h0, objs, Roots()) && AllSeen(objs, seen)
      modifies this`objs, this`gray, this`grayagain
      ensures InMarking(rest, done) && gray == [] && Kept(h0, objs, Roots()) && AllSeen(objs, seen)
    {
      hide Marking, Whites, Kept, AllSeen;
      done := done0;
      while gray != []
        invariant InMarking(rest, done) && Kept(h0, objs, Roots()) && AllSeen(objs, seen)
        decreases Whites(objs), |gray|
      {
        ghost var _, done1 := PropagateOne(rest, done, false, h0, seen);
        done := done1;
      }
    }

    /** Mark one of the roots. */
    method MarkRoot(r: nat, ghost rest: seq<nat>, ghost h0: Heap, ghost seen: set<nat>)
      requires InMarking(rest, {}) && r in Roots() && Kept(h0, objs, Roots()) && AllSeen(objs, seen)
      modifies this`objs, this`gray
      ensures InMarking(rest, {}) && Kept(h0, objs, Roots()) && AllSeen(objs, seen + {r})
    {
      hide Tri, Marks, Ready, Kept, MarkedWithin;
      ghost var h, g := objs, gray;
      BaseOf(h, allgc, mainthread, Roots(), currentwhite, g, rest, {}, start);
      MarkRef(To(r), start);
      MarksMarking(h, g, objs, gray, start, allgc, mainthread, Roots(), currentwhite, rest, {});
      MarksKeeps(h0, h, g, objs, gray, start, Roots(), seen);
    }

    /** markmt */
    method MarkMt(ghost rest: seq<nat>, ghost h0: Heap, ghost seen: set<nat>)
      requires InMarking(rest, {}) && Kept(h0, objs, Roots()) && AllSeen(objs, seen)
      modifies this`objs, this`gray
      ensures InMarking(rest, {}) && Kept(h0, objs, Roots()) && AllSeen(objs, seen + set m | m in mt)
    {
      hide Marking, Kept, AllSeen;
      var i := 0;
      ghost var s := seen;
      while i < |mt|
        invariant 0 <= i <= |mt| && s == seen + set m | m in mt[..i]
        invariant InMarking(rest, {}) && Kept(h0, objs, Roots()) && AllSeen(objs, s)
      {
        MarkRoot(mt[i], rest, h0, s);
        s := s + {mt[i]};
        i := i + 1;
      }
      assert mt[..i] == mt;
    }

    // -------------------------------------------------------------- the phases

    /** restartcollection */
    method RestartCollection()
      requires Valid() && gcstate.Pause?
      modifies this`objs, this`gray, this`grayagain, this`start
      ensures InMarking(grayagain, {}) && gray != [] && Kept(old(objs), objs, Roots())
      ensures start == ReachSet(old(objs), Roots())
    {
      hide Tri, Kept, ClosedUnder, Ready, Base, Marks, MarkedWithin, LiveClosed, AllWhite;
      gray, grayagain := [], [];
      start := ReachSet(objs, Roots());
      WhiteStart(objs, allgc, mainthread, Roots(), currentwhite);
      GraphSame(objs, Roots());
      ghost var h := objs;
      MarkMain();
      MarkRoot(registry, [], h, {});
      MarkMt([], h, {registry});
      MainIsGray(objs, allgc, mainthread, currentwhite, gray);
    }

    /** The main thread is the first to be marked. */
    method MarkMain()
      requires (currentwhite.White0? || currentwhite.White1?) && AllWhite(objs, [mainthread] + allgc, currentwhite)
      requires Tri(objs, allgc, mainthread, currentwhite, gray, [], {}, -1)
      requires ClosedUnder(objs, Roots(), start) && MarkedWithin(objs, start)
      modifies this`objs, this`gray
      ensures InMarking([], {}) && Kept(old(objs), objs, Roots()) && AllSeen(objs, {})
    {
      hide Tri, Marks, Ready, ClosedUnder, MarkedWithin, Kept;
      ghost var h, g := objs, gray;
      MainReady(h, allgc, mainthread, Roots(), currentwhite, g, start);
      MarkObject(mainthread, start);
      MarksTri(h, g, objs, gray, start, allgc, mainthread, currentwhite, [], {}, -1);
      MarksClosed(h, g, objs, gray, start, Roots());
      GraphSame(h, Roots());
      MarksKeeps(h, h, g, objs, gray, start, Roots(), {});
    }

    /** atomic: from here to the flip of the white the mutator does not run. */
    method AtomicPhase()
      requires InMarking(grayagain, {}) && gray == []
      modifies this`objs, this`gray, this`grayagain, this`currentwhite
      ensures currentwhite.White0? || currentwhite.White1?
      ensures Base(objs, allgc, mainthread) && LiveClosed(objs, Roots(), currentwhite) && LiveWithin(objs, currentwhite, start)
      ensures Kept(old(objs), objs, Roots())
    {
      hide Marking, Kept, Base, LiveClosed, LiveWithin;
      var saved := grayagain;
      ghost var h := objs;
      GraphSame(objs, Roots());
      assert AllSeen(objs, {});
      MarkRoot(running, saved, h, {});
      MarkRoot(registry, saved, h, {} + {running});
      MarkMt(saved, h, {} + {running} + {registry});
      ghost var seen := {} + {running} + {registry} + set m | m in mt;
      ghost var done := PropagateAllAtomic(saved, {}, h, seen);
      ListsMoved(objs, allgc, mainthread, Roots(), currentwhite, saved, done, start);
      gray := saved;
      done := PropagateAllAtomic([], done, h, seen);
      FlipEnds(objs, allgc, mainthread, Roots(), currentwhite, done, start, seen);
      currentwhite := OtherWhite(currentwhite);
    }

    ghost predicate Sweeping(n: nat)
      reads this
    {
      && (currentwhite.White0? || currentwhite.White1?)
      && Base(objs, allgc, mainthread) && LiveClosed(objs, Roots(), currentwhite)
      && LiveWithin(objs, currentwhite, start)
      && n <= |allgc| && AllWhite(objs, allgc[..n], currentwhite)
    }

    /** One object of sweeplist: a dead one is freed, any other turns white. */
    method SweepOne(n: nat, ghost h0: Heap) returns (n2: nat)
      requires Sweeping(n) && n < |allgc| && Kept(h0, objs, Roots())
      modifies this`objs, this`allgc
      ensures Sweeping(n2) && |allgc| - n2 == |old(allgc)| - n - 1 && Kept(h0, objs, Roots())
    {
      hide LiveClosed, LiveWithin, SameGraph, Shrinks, Base;
      ghost var h := objs;
      var curr := allgc[n];
      BaseListed(objs, allgc, mainthread, n);
      if IsDead(objs[curr], currentwhite) {
        FreeKeeps(objs, allgc, mainthread, Roots(), currentwhite, n, start);
        allgc := allgc[..n] + allgc[n + 1..];
        objs := objs - {curr};
        n2 := n;
      } else {
        WhitenKeeps(objs, allgc, mainthread, Roots(), currentwhite, curr, start);
        objs := objs[curr := objs[curr].(color := currentwhite)];
        n2 := n + 1;
        assert allgc[..n2] == allgc[..n] + [curr];
        assert AllWhite(objs, allgc[..n], currentwhite);
      }
      PreservesTrans(h0, h, objs, Roots());
    }

    /** sweeplist on the list of all objects, from its n-th on, at most `count` objects. */
    method SweepList(n0: nat, count0: nat) returns (c: Cursor)
      requires Sweeping(n0) && count0 > 0
      modifies this`objs, this`allgc
      ensures Kept(old(objs), objs, Roots())
      ensures c.Null? ==> Sweeping(|allgc|)
      ensures c.After? ==> Sweeping(c.n) && |allgc| - c.n < |old(allgc)| - n0
    {
      hide Sweeping, Kept;
      GraphSame(objs, Roots());
      var n: nat, count := n0, count0;
      SweepingBound(n);
      while n < |allgc| && count > 0
        invariant Sweeping(n) && n <= |allgc| && Kept(old(objs), objs, Roots())
        invariant 0 <= count <= count0 && (count < count0 ==> |allgc| - n < |old(allgc)| - n0)
        invariant count == count0 ==> allgc == old(allgc) && n == n0
        decreases count
      {
        n := SweepOne(n, old(objs));
        SweepingBound(n);
        count := count - 1;
      }
      c := if n == |allgc| then Null else After(n);
    }

    lemma SweepingBound(n: nat)
      requires Sweeping(n)
      ensures n <= |allgc|
    {
    }

    /** entersweep */
    method EnterSweep()
      requires Sweeping(0) && sweepMax > 0 && running in objs && objs[running].kind.Thread?
      modifies this`objs, this`allgc, this`gcstate, this`sweepgc
      ensures Valid() && gcstate.SwpAllGc? && Kept(old(objs), objs, Roots())
    {
      hide Base, LiveClosed, LiveWithin, AllWhite, Kept;
      gcstate := SwpAllGc;
      ghost var h := objs;
      sweepgc := SweepList(0, 1);
      RunningKept(h, objs, Roots(), running);
      assert allgc[..|allgc|] == allgc;
    }

    /** sweepstep in the list of all objects */
    method SweepStep()
      requires Valid() && gcstate.SwpAllGc?
      modifies this`objs, this`allgc, this`gcstate, this`sweepgc
      ensures Valid() && Kept(old(objs), objs, Roots())
      ensures gcstate.SwpFinObj? || (gcstate.SwpAllGc? && Remaining() < old(Remaining()))
    {
      hide Base, LiveClosed, LiveWithin, AllWhite, Kept;
      GraphSame(objs, Roots());
      ghost var h := objs;
      if sweepgc.After? {
        sweepgc := SweepList(sweepgc.n, sweepMax);
        RunningKept(h, objs, Roots(), running);
        assert allgc[..|allgc|] == allgc;
        if sweepgc.After? { return; }
      }
      gcstate := SwpFinObj;
      sweepgc := After(0);
    }

    function Remaining(): int
      reads this
    {
      match sweepgc case Null => 0 case After(n) => |allgc| - n
    }

    /**
     * singlestep. No step frees or changes anything the mutator can reach; each advances to the
     * next phase or comes nearer to the end of its own.
     */
    method SingleStep()
      requires Valid()
      modifies this`objs, this`allgc, this`gray, this`grayagain, this`gcstate, this`currentwhite, this`sweepgc, this`start
      ensures Valid() && Kept(old(objs), objs, Roots())
      ensures start == if old(gcstate).Pause? then ReachSet(old(objs), Roots()) else old(start)
      ensures gcstate == NextState(old(gcstate)) || (gcstate == old(gcstate) && gcstate.Propagate? && Fewer(old(objs), old(gray), objs, gray))
        || (gcstate == old(gcstate) && gcstate.SwpAllGc? && Remaining() < old(Remaining()))
      ensures old(gcstate).CallFin? ==> objs == old(objs) && currentwhite == old(currentwhite)
    {
      hide Base, LiveClosed, LiveWithin, AllWhite, Kept, Marking, ReachSet;
      GraphSame(objs, Roots());
      match gcstate
      case Pause =>
        ghost var h := objs;
        RestartCollection();
        MarkingLive(h, objs, allgc, mainthread, Roots(), currentwhite, gray, grayagain, {}, start);
        RunningKept(h, objs, Roots(), running);
        gcstate := Propagate;
      case Propagate => StepPropagate();
      case Atomic => StepAtomic();
      case SwpAllGc => SweepStep();
      case SwpFinObj =>
        // the list of objects with finalizers is empty
        gcstate := SwpToBeFnz;
        sweepgc := After(0);
      case SwpToBeFnz =>
        gcstate := SwpEnd;
        sweepgc := Null;
      case SwpEnd =>
        ghost var h := objs;
        WhitenMain(objs, allgc, mainthread, Roots(), currentwhite, start);
        objs := objs[mainthread := objs[mainthread].(color := currentwhite)];
        RunningKept(h, objs, Roots(), running);
        gcstate := CallFin;
      case CallFin =>
        gcstate := Pause;
    }

    method StepPropagate()
      requires Valid() && gcstate.Propagate?
      modifies this`objs, this`gray, this`grayagain, this`gcstate
      ensures Valid() && Kept(old(objs), objs, Roots())
      ensures gcstate.Atomic? || (gcstate.Propagate? && Fewer(old(objs), old(gray), objs, gray))
    {
      hide Base, LiveClosed, Kept, Marking;
      ghost var h := objs;
      GraphSame(objs, Roots());
      assert AllSeen(objs, {});
      ghost var rest, done := PropagateOne(grayagain, {}, true, objs, {});
      MarkingLive(h, objs, allgc, mainthread, Roots(), currentwhite, gray, grayagain, {}, start);
      RunningKept(h, objs, Roots(), running);
      if gray == [] { gcstate := Atomic; }
    }

    method StepAtomic()
      requires Valid() && gcstate.Atomic?
      modifies this`objs, this`allgc, this`gray, this`grayagain, this`gcstate, this`currentwhite, this`sweepgc
      ensures Valid() && gcstate.SwpAllGc? && Kept(old(objs), objs, Roots())
    {
      hide Base, LiveClosed, LiveWithin, Kept, Marking;
      ghost var h := objs;
      PropagateAll();
      ghost var h1 := objs;
      AtomicPhase();
      ghost var h2 := objs;
      KeptTrans(h, h1, h2, Roots());
      RunningKept(h, h2, Roots(), running);
      EnterSweep();
      KeptTrans(h, h2, objs, Roots());
    }

    // -------------------------------------------------------------- a full collection

    /** How much of its phase is left to do. */
    ghost function Load(): (r: (nat, nat))
      requires Valid()
      reads this
    {
      (if gcstate.Propagate? then |Whites(objs)| else 0,
       if gcstate.Propagate? then |gray| else if gcstate.SwpAllGc? then Remaining() else 0)
    }

    /** luaC_runtilstate, for one target state. */
    method RunUntil(target: State, ghost h0: Heap)
      requires Valid() && Kept(h0, objs, Roots())
      modifies this`objs, this`allgc, this`gray, this`grayagain, this`gcstate, this`currentwhite, this`sweepgc, this`start
      ensures Valid() && gcstate == target && Kept(h0, objs, Roots())
      ensures !Passes(old(gcstate), target) ==> start == old(start)
      ensures target.Pause? && old(gcstate).CallFin? ==> objs == old(objs) && currentwhite == old(currentwhite)
    {
      hide Valid, Kept, Load, Distance, Roots, NextState, Passes;
      while gcstate != target
        invariant Valid() && Kept(h0, objs, Roots())
        invariant !Passes(old(gcstate), target) ==> start == old(start) && (gcstate == target || !Passes(gcstate, target))
        invariant old(gcstate).CallFin? && target.Pause? ==>
          objs == old(objs) && currentwhite == old(currentwhite) && (gcstate.CallFin? || gcstate.Pause?)
        decreases Distance(gcstate, target), Load().0, Load().1
      {
        NextCloser(gcstate, target);
        StepKept(h0);
      }
    }

    method StepKept(ghost h0: Heap)
      requires Valid() && Kept(h0, objs, Roots())
      modifies this`objs, this`allgc, this`gray, this`grayagain, this`gcstate, this`currentwhite, this`sweepgc, this`start
      ensures Valid() && Kept(h0, objs, Roots())
      ensures start == if old(gcstate).Pause? then ReachSet(old(objs), Roots()) else old(start)
      ensures gcstate == NextState(old(gcstate)) || (gcstate == old(gcstate) &&
        (Load().0 < old(Load()).0 || (Load().0 == old(Load()).0 && Load().1 < old(Load()).1)))
      ensures old(gcstate).CallFin? ==> objs == old(objs) && currentwhite == old(currentwhite)
    {
      hide Base, LiveClosed, LiveWithin, Kept, Marking, AllWhite;
      ghost var h, g := objs, gray;
      SingleStep();
      KeptTrans(h0, h, objs, Roots());
      if gcstate.Propagate? && Fewer(h, g, objs, gray) { FewerCount(Whites(objs), Whites(h)); }
    }

    /**
     * luaC_fullgc. Afterwards exactly the objects reachable before are left, besides shared ones.
     */
    method FullGc()
      requires Valid()
      modifies this`objs, this`allgc, this`gray, this`grayagain, this`gcstate, this`currentwhite, this`sweepgc, this`start
      ensures Valid() && gcstate.Pause? && Kept(old(objs), objs, Roots())
      ensures forall x :: x in objs && !objs[x].shared ==> Reachable(old(objs), Roots(), x)
    {
      hide Base, LiveClosed, LiveWithin, Kept, Marking, AllWhite, ReachSet;
      ghost var h0 := objs;
      GraphSame(objs, Roots());
      if KeepInvariant(gcstate) {
        AbandonMarking(objs, allgc, mainthread, Roots(), currentwhite, gray, grayagain, start);
        start := objs.Keys;
        EnterSweep();
      }
      RunUntil(Pause, h0);
      ghost var h1 := objs;
      StepKept(h0);
      ghost var s := start;
      RunUntil(CallFin, h0);
      assert start == s;
      assert LiveWithin(objs, currentwhite, start);
      RunUntil(Pause, h0);
      assert LiveWithin(objs, currentwhite, start);
      OnlyReachable(h0, h1, objs, allgc, mainthread, Roots(), currentwhite);
    }

    // -------------------------------------------------------------- the mutator

    /** Valid, but for `hole`, a value that black objects may refer to although it is not marked. */
    ghost predicate Torn(h: Heap, hole: int)
      reads this
    {
      && sweepMax > 0 && (currentwhite.White0? || currentwhite.White1?)
      && Base(h, allgc, mainthread)
      && running in h && h[running].kind.Thread?
      && LiveClosed(h, Roots(), currentwhite)
      && (KeepInvariant(gcstate) ==>
        && Tri(h, allgc, mainthread, currentwhite, gray, grayagain, {}, hole) && Seen(h, mainthread)
        && ClosedUnder(h, Roots(), start) && MarkedWithin(h, start) && (gcstate.Propagate? ==> gray != []))
      && (!KeepInvariant(gcstate) ==> Phase(gcstate, h, allgc, mainthread, Roots(), currentwhite, gray, grayagain, sweepgc, start))
    }

    /** The mutator gets hold of reachable objects only, which are live and, in a cycle, known to it. */
    lemma ReachableOk(v: nat)
      requires Valid() && Reachable(objs, Roots(), v)
      ensures v in objs && !IsDead(objs[v], currentwhite)
      ensures KeepInvariant(gcstate) ==> v in start || objs[v].shared
    {
      hide Base, LiveClosed, ClosedUnder, Reachable, Tri;
      ReachableIsLive(objs, Roots(), currentwhite, v);
      if KeepInvariant(gcstate) { ReachClosed(objs, Roots(), start, v); }
    }

    lemma WritesTorn(h2: Heap, vs: set<nat>, hole: int)
      requires Valid() && Writes(objs, h2, vs)
      requires forall v :: v in vs ==> Reachable(objs, Roots(), v)
      requires forall x, v :: x in objs && objs[x].color.Black? && h2[x] != objs[x] && v in vs ==> Seen(objs, v) || v == hole
      ensures Torn(h2, hole)
    {
      hide Base, LiveClosed, ClosedUnder, Reachable, Tri, Writes, LiveWithin, AllWhite, MarkedWithin;
      forall v | v in vs
        ensures v in objs && !IsDead(objs[v], currentwhite) && (KeepInvariant(gcstate) ==> v in start || objs[v].shared)
      { ReachableOk(v); }
      WritesBase(objs, h2, vs, allgc, mainthread);
      WritesLive(objs, h2, vs, Roots(), currentwhite);
      assert running in h2 && h2[running].kind.Thread? by { WritesKind(objs, h2, vs, running); }
      if KeepInvariant(gcstate) {
        WritesTri(objs, h2, vs, allgc, mainthread, currentwhite, gray, grayagain, hole);
        WritesClosed(objs, h2, vs, Roots(), start);
        WritesKind(objs, h2, vs, mainthread);
      }
    }

    /** luaC_barrier_: move the collector forward; after the marking, whiten the main object instead. */
    method Barrier(o: nat, v: nat)
      requires o in objs && v in objs && objs[o].color.Black? && Unmarked(objs[v]) && !objs[o].shared
      requires Torn(objs, v) && (KeepInvariant(gcstate) ==> v in start)
      modifies this`objs, this`gray
      ensures Valid() && forall x :: x in old(objs) ==> x in objs && SameRefs(old(objs[x]), objs[x])
      ensures objs.Keys == old(objs).Keys
    {
      hide Base, LiveClosed, ClosedUnder, Tri, LiveWithin, AllWhite, MarkedWithin, Marks;
      if KeepInvariant(gcstate) {
        MarkHole(v);
      } else {
        assert IsSweepPhase(gcstate) by { BlackMeansSweep(objs, allgc, mainthread, currentwhite, o); }
        OwnObject(objs, allgc, mainthread, o);
        WhitenKeeps(objs, allgc, mainthread, Roots(), currentwhite, o, start);
        objs := objs[o := objs[o].(color := currentwhite)];
      }
    }

    /** Marking the value just stored restores the invariant. */
    method MarkHole(v: nat)
      requires v in objs && IsWhite(objs[v]) && Torn(objs, v) && KeepInvariant(gcstate) && (v in start || objs[v].shared)
      modifies this`objs, this`gray
      ensures Valid() && forall x :: x in old(objs) ==> x in objs && SameRefs(old(objs[x]), objs[x])
      ensures objs.Keys == old(objs).Keys
    {
      hide LiveClosed, ClosedUnder, Tri, MarkedWithin, Ready, Base;
      ghost var h, g := objs, gray;
      BaseReady(h, allgc, mainthread, Roots(), start);
      MarkObject(v, start);
      MarksTri(h, g, objs, gray, start, allgc, mainthread, currentwhite, grayagain, {}, v);
      HoleClosed(objs, allgc, mainthread, currentwhite, gray, grayagain, {}, v);
      MarksClosed(h, g, objs, gray, start, Roots());
      SeenStays(h, g, objs, gray, start, mainthread);
      assert Recoloured(h[running], objs, running, start);
      assert gcstate.Propagate? ==> |gray| >= |g|;
      MarkingLive(h, objs, allgc, mainthread, Roots(), currentwhite, gray, grayagain, {}, start);
    }

    /** A table field is set: luaC_barrierback moves the collector back. */
    method SetField(t: nat, i: nat, v: nat)
      requires Valid() && Reachable(objs, Roots(), t) && Reachable(objs, Roots(), v)
      requires t in objs && objs[t].kind.Table? && !objs[t].shared && i <= |objs[t].refs|
      modifies this`objs, this`grayagain
      ensures Valid() && objs.Keys == old(objs).Keys
      ensures objs[t].meta == old(objs[t].meta) && objs[t].refs == Stored(old(objs[t].refs), i, v)
      ensures forall x :: x in objs && x != t ==> objs[x] == old(objs[x])
    {
      hide Base, LiveClosed, ClosedUnder, Reachable, Tri, Writes, LiveWithin, AllWhite, MarkedWithin;
      ghost var h := objs;
      ReachableOk(v);
      StoredWrites(objs, t, i, v, allgc, mainthread);
      WritesTorn(objs[t := objs[t].(refs := Stored(objs[t].refs, i, v))], {v}, if objs[t].color.Black? && Unmarked(objs[v]) then v else -1);
      WholeTorn();
      objs := objs[t := objs[t].(refs := Stored(objs[t].refs, i, v))];
      if objs[t].color.Black? && Unmarked(objs[v]) {
        BarrierBack(h, t, v);
      } else {
        TornWhole(objs);
      }
    }

    /** luaC_barrierback_; `h` is the heap before the write. */
    method BarrierBack(ghost h: Heap, t: nat, ghost v: nat)
      requires t in objs && objs[t].color.Black? && objs[t].kind.Table? && !objs[t].shared
      requires h.Keys == objs.Keys && (forall x :: x in h && x != t ==> objs[x] == h[x])
      requires h[t].color.Black? && h[t].kind.Table? && !h[t].shared
      requires Torn(h, -1) && Torn(objs, v)
      modifies this`objs, this`grayagain
      ensures Valid() && objs == old(objs)[t := old(objs[t]).(color := Gray)]
    {
      hide Base, LiveClosed, ClosedUnder, Tri, LiveWithin, AllWhite, MarkedWithin;
      if KeepInvariant(gcstate) {
        BackTri(h, objs, t, allgc, mainthread, currentwhite, gray, grayagain, v);
        GrayClosed(objs, t, Roots(), start);
      }
      GrayLive(objs, t, allgc, mainthread, Roots(), currentwhite);
      objs := objs[t := objs[t].(color := Gray)];
      grayagain := [t] + grayagain;
    }

    /** A slot of a C closure, a prototype or a userdata is set: luaC_barrier. */
    method SetSlot(o: nat, i: nat, v: nat)
      requires Valid() && Reachable(objs, Roots(), o) && Reachable(objs, Roots(), v)
      requires o in objs && (objs[o].kind.Closure? || objs[o].kind.Proto? || objs[o].kind.Userdata?)
      requires !objs[o].shared && i <= |objs[o].refs| && (objs[o].kind.Userdata? ==> i == 0)
      modifies this`objs, this`gray
      ensures Valid() && objs.Keys == old(objs).Keys
      ensures objs[o].meta == old(objs[o].meta) && objs[o].refs == Stored(old(objs[o].refs), i, v)
      ensures forall x :: x in objs && x != o ==> SameRefs(old(objs[x]), objs[x])
    {
      hide Base, LiveClosed, ClosedUnder, Reachable, Tri, Writes, LiveWithin, AllWhite, MarkedWithin;
      ReachableOk(v);
      StoredWrites(objs, o, i, v, allgc, mainthread);
      WritesTorn(objs[o := objs[o].(refs := Stored(objs[o].refs, i, v))], {v}, if objs[o].color.Black? && Unmarked(objs[v]) then v else -1);
      objs := objs[o := objs[o].(refs := Stored(objs[o].refs, i, v))];
      if objs[o].color.Black? && Unmarked(objs[v]) {
        Barrier(o, v);
      } else {
        TornWhole(objs);
      }
    }

    /** lua_setmetatable on a table or a userdata: luaC_objbarrier. */
    method SetMetatable(o: nat, m: nat)
      requires Valid() && Reachable(objs, Roots(), o) && Reachable(objs, Roots(), m)
      requires o in objs && (objs[o].kind.Table? || objs[o].kind.Userdata?) && !objs[o].shared
      modifies this`objs, this`gray
      ensures Valid() && objs.Keys == old(objs).Keys
      ensures objs[o].meta == To(m) && objs[o].refs == old(objs[o].refs)
      ensures forall x :: x in objs && x != o ==> SameRefs(old(objs[x]), objs[x])
    {
      hide Base, LiveClosed, ClosedUnder, Reachable, Tri, Writes, LiveWithin, AllWhite, MarkedWithin;
      ReachableOk(m);
      MetaWrites(objs, o, m, allgc, mainthread);
      WritesTorn(objs[o := objs[o].(meta := To(m))], {m}, if objs[o].color.Black? && Unmarked(objs[m]) then m else -1);
      objs := objs[o := objs[o].(meta := To(m))];
      if objs[o].color.Black? && Unmarked(objs[m]) {
        Barrier(o, m);
      } else {
        TornWhole(objs);
      }
    }

    /**
     * A closed upvalue is set. The closures that share it, of any colour, all see the new value in
     * the slots given by `users`; luaC_upvalbarrier marks the value.
     */
    method SetUpvalue(users: map<nat, nat>, v: nat)
      requires Valid() && Reachable(objs, Roots(), v)
      requires forall c :: c in users ==> c in objs && objs[c].kind.Closure? && !objs[c].shared && users[c] < |objs[c].refs|
      modifies this`objs, this`gray
      ensures Valid() && objs.Keys == old(objs).Keys
      ensures forall x :: x in objs ==> SameRefs(if x in users then old(objs[x]).(refs := old(objs[x]).refs[users[x] := v]) else old(objs[x]), objs[x])
    {
      hide Base, LiveClosed, ClosedUnder, Reachable, Tri, Writes, LiveWithin, AllWhite, MarkedWithin;
      ReachableOk(v);
      ghost var h := objs;
      UpvalueWrites(objs, users, v, allgc, mainthread);
      WritesTorn(WithUpvalue(objs, users, v), {v}, if Unmarked(objs[v]) then v else -1);
      objs := WithUpvalue(objs, users, v);
      assert objs[v].color == h[v].color && objs[v].shared == h[v].shared;
      if KeepInvariant(gcstate) && IsWhite(objs[v]) {
        if Unmarked(objs[v]) { MarkHole(v); } else { TornWhole(objs); }
      } else if KeepInvariant(gcstate) {
        TornWhole(objs);
      } else {
        NotMarking(objs, if Unmarked(objs[v]) then v else -1);
      }
    }

    /** A thread's stack changes, to hold any objects the mutator can reach. There is no barrier. */
    method SetStack(th: nat, refs: seq<nat>)
      requires Valid() && th in objs && objs[th].kind.Thread? && !objs[th].shared
      requires forall r :: r in refs ==> Reachable(objs, Roots(), r)
      modifies this`objs
      ensures Valid() && objs == old(objs)[th := old(objs[th]).(refs := refs)]
    {
      hide Base, LiveClosed, ClosedUnder, Reachable, Tri, Writes, LiveWithin, AllWhite, MarkedWithin;
      StackWrites(objs, th, refs, allgc, mainthread);
      WritesTorn(objs[th := objs[th].(refs := refs)], set r | r in refs, -1);
      objs := objs[th := objs[th].(refs := refs)];
      TornWhole(objs);
    }

    /** Entries of a table go away: no barrier. */
    method ClearField(t: nat, i: nat)
      requires Valid() && t in objs && objs[t].kind.Table? && !objs[t].shared && i < |objs[t].refs|
      modifies this`objs
      ensures Valid() && objs == old(objs)[t := old(objs[t]).(refs := old(objs[t]).refs[..i] + old(objs[t]).refs[i + 1..])]
    {
      hide Base, LiveClosed, ClosedUnder, Reachable, Tri, Writes, LiveWithin, AllWhite, MarkedWithin;
      ghost var h2 := objs[t := objs[t].(refs := objs[t].refs[..i] + objs[t].refs[i + 1..])];
      ClearWrites(objs, t, i, allgc, mainthread);
      WritesTorn(h2, {}, -1);
      objs := objs[t := objs[t].(refs := objs[t].refs[..i] + objs[t].refs[i + 1..])];
      TornWhole(objs);
    }

    /** Another thread runs, and the metatables of basic types change; the atomic phase remarks both. */
    method SetRoots(th: nat, metas: seq<nat>)
      requires Valid() && Reachable(objs, Roots(), th) && th in objs && objs[th].kind.Thread?
      requires forall m :: m in metas ==> Reachable(objs, Roots(), m)
      modifies this`running, this`mt
      ensures Valid() && running == th && mt == metas
    {
      hide Base, Reachable, Tri, LiveWithin, AllWhite, MarkedWithin, Ready, LiveClosed, ClosedUnder;
      forall m | m == th || m in metas
        ensures m in objs && !IsDead(objs[m], currentwhite) && (KeepInvariant(gcstate) ==> m in start || objs[m].shared)
      { ReachableOk(m); }
      RootsIn(objs, Roots(), {mainthread, registry, th} + (set m | m in metas), currentwhite);
      if KeepInvariant(gcstate) { RootsClosed(objs, Roots(), {mainthread, registry, th} + (set m | m in metas), start); }
      running, mt := th, metas;
    }

    /** luaC_newobj: a new object, white and first in its list, on top of the running thread's stack. */
    method NewObject(id: nat, k: Kind)
      requires Valid() && id !in objs
      modifies this`objs, this`allgc, this`sweepgc, this`start
      ensures Valid() && objs == Created(old(objs), id, k, currentwhite, running)
      ensures start == old(start) + {id}
    {
      hide Base, LiveClosed, ClosedUnder, Tri, LiveWithin, AllWhite, MarkedWithin, Created;
      CreatedBase(objs, id, k, currentwhite, running, allgc, mainthread);
      CreatedLive(objs, id, k, currentwhite, running, Roots());
      CreatedRefs(objs, id, k, currentwhite, running);
      CreatedNew(objs, id, k, currentwhite, running);
      CreatedPhase(id, k);
      objs := Created(objs, id, k, currentwhite, running);
      allgc := [id] + allgc;
      if gcstate.SwpAllGc? && sweepgc.After? && sweepgc.n > 0 { sweepgc := After(sweepgc.n + 1); }
      start := start + {id};
    }

    /**
     * Objects become shared, by this state (`own`) or by another whose objects now become known, and
     * the other state's collector may recolour its own.
     */
    method ShareObjects(h2: Heap, own: set<nat>)
      requires Valid() && Shares(objs, h2, own)
      requires forall x :: x in objs && (x in allgc || x == mainthread) ==> h2[x].color == objs[x].color
      modifies this`objs
      ensures Valid() && objs == h2
    {
      hide Base, LiveClosed, ClosedUnder, Tri, LiveWithin, MarkedWithin, Shares;
      SharesBase(objs, h2, own, allgc, mainthread);
      SharesLive(objs, h2, own, Roots(), currentwhite);
      SharesColors(objs, h2, own, allgc, mainthread, running, currentwhite);
      if KeepInvariant(gcstate) {
        SharesTri(objs, h2, own, allgc, mainthread, currentwhite, gray, grayagain);
        SharesClosed(objs, h2, own, Roots(), start);
      }
      objs := h2;
    }

    lemma WholeTorn()
      requires Valid()
      ensures Torn(objs, -1)
    {
      hide Base, LiveClosed, ClosedUnder, Tri, LiveWithin, AllWhite, MarkedWithin;
    }

    lemma TornWhole(h: Heap)
      requires Torn(h, -1) && h == objs
      ensures Valid()
    {
      hide Base, LiveClosed, ClosedUnder, Tri, LiveWithin, AllWhite, MarkedWithin;
    }

    lemma NotMarking(h: Heap, hole: int)
      requires Torn(h, hole) && h == objs && !KeepInvariant(gcstate)
      ensures Valid()
    {
      hide Base, LiveClosed, ClosedUnder, Tri, LiveWithin, AllWhite, MarkedWithin;
    }

    lemma CreatedPhase(id: nat, k: Kind)
      requires Valid() && id !in objs
      ensures var c := if gcstate.SwpAllGc? && sweepgc.After? && sweepgc.n > 0 then After(sweepgc.n + 1) else sweepgc;
        Phase(gcstate, Created(objs, id, k, currentwhite, running), [id] + allgc, mainthread, Roots(), currentwhite,
              gray, grayagain, c, start + {id})
    {
      hide Base, LiveClosed, ClosedUnder, Tri, LiveWithin, MarkedWithin, Created, AllWhite;
      var h2, l2 := Created(objs, id, k, currentwhite, running), [id] + allgc;
      CreatedRefs(objs, id, k, currentwhite, running);
      CreatedNew(objs, id, k, currentwhite, running);
      CreatedLive(objs, id, k, currentwhite, running, Roots());
      if KeepInvariant(gcstate) {
        CreatedTri(objs, id, k, currentwhite, running, allgc, mainthread, gray, grayagain);
        CreatedClosed(objs, id, k, currentwhite, running, Roots(), start);
      } else if gcstate.SwpAllGc? && sweepgc.After? {
        if sweepgc.n > 0 {
          assert l2[..sweepgc.n + 1] == [id] + allgc[..sweepgc.n];
          WhiteCons(h2, id, allgc[..sweepgc.n], currentwhite);
        } else {
          assert allgc[..0] == l2[..0];
        }
      } else if gcstate.CallFin? || gcstate.Pause? {
        WhiteInsert(h2, mainthread, id, allgc, currentwhite);
      } else {
        WhiteCons(h2, id, allgc, currentwhite);
      }
    }
  }

  lemma TraverseReady(h: Heap, o: nat, s: set<nat>)
    requires o in h && Ready(h, s) && (o in s || h[o].shared)
    ensures var h1 := Popped(h, o); Ready(h1, s) && forall r :: r in Refs(h1[o]) ==> r in h1 && (r in s || h1[r].shared)
  {
    hide Refs;
    ReadyRecolour(h, o, Black, s);
    RefsKept(h[o], Popped(h, o)[o]);
  }

  /** A collector step: what is reachable stays, as it was; nothing becomes reachable. */
  ghost predicate Kept(h: Heap, h2: Heap, roots: set<nat>) { SameGraph(h, h2, roots) && Shrinks(h, h2) }

  ghost predicate AllSeen(h: Heap, s: set<nat>) { forall x :: x in s ==> Seen(h, x) }

  lemma BaseOf(h: Heap, allgc: seq<nat>, main: nat, roots: set<nat>, w: Color, gray: seq<nat>, rest: seq<nat>, done: set<nat>, s: set<nat>)
    requires (w.White0? || w.White1?) && Marking(h, allgc, main, roots, w, gray, rest, done, s)
    ensures Ready(h, s) && forall r :: r in roots ==> r in h && (r in s || h[r].shared)
  {
    hide Base, Ready;
    BaseReady(h, allgc, main, roots, s);
  }

  lemma MarksKeeps(h0: Heap, h: Heap, g: seq<nat>, h2: Heap, g2: seq<nat>, s: set<nat>, roots: set<nat>, seen: set<nat>)
    requires Kept(h0, h, roots) && AllSeen(h, seen) && Marks(h, g, h2, g2, s)
    ensures Kept(h0, h2, roots) && AllSeen(h2, seen)
  {
    hide SameGraph, Shrinks, Marks;
    MarksGraph(h, g, h2, g2, s, roots);
    PreservesTrans(h0, h, h2, roots);
    forall x | x in seen ensures Seen(h2, x) { SeenStays(h, g, h2, g2, s, x); }
  }

  lemma PropagateKeeps(h0: Heap, h: Heap, g: seq<nat>, h2: Heap, g2: seq<nat>, s: set<nat>, roots: set<nat>, seen: set<nat>)
    requires Kept(h0, h, roots) && AllSeen(h, seen)
    requires g != [] && g[0] in h && Marks(Popped(h, g[0]), g[1..], h2, g2, s)
    requires h[g[0]].color.Gray?
    ensures Kept(h0, h2, roots) && AllSeen(h2, seen)
  {
    hide Marks;
    var h1 := Popped(h, g[0]);
    PoppedGraph(h, g[0], roots);
    assert Kept(h0, h1, roots) by { PreservesTrans(h0, h, h1, roots); }
    assert AllSeen(h1, seen) by { forall x | x in seen ensures Seen(h1, x) { assert Seen(h, x); } }
    MarksKeeps(h0, h1, g[1..], h2, g2, s, roots, seen);
  }

  lemma PoppedGraph(h: Heap, o: nat, roots: set<nat>)
    requires o in h
    ensures SameGraph(h, Popped(h, o), roots) && Shrinks(h, Popped(h, o))
  {
  }

  lemma GraphSame(h: Heap, roots: set<nat>)
    ensures Kept(h, h, roots)
  {
  }

  function NextState(st: State): State {
    match st
    case Propagate => Atomic
    case Atomic => SwpAllGc
    case SwpAllGc => SwpFinObj
    case SwpFinObj => SwpToBeFnz
    case SwpToBeFnz => SwpEnd
    case SwpEnd => CallFin
    case CallFin => Pause
    case Pause => Propagate
  }

  predicate Fewer(h: Heap, g: seq<nat>, h2: Heap, g2: seq<nat>) {
    Whites(h2) < Whites(h) || (Whites(h2) == Whites(h) && |g2| < |g|)
  }

  lemma KeptTrans(h: Heap, h2: Heap, h3: Heap, roots: set<nat>)
    requires Kept(h, h2, roots) && Kept(h2, h3, roots)
    ensures Kept(h, h3, roots)
  {
    PreservesTrans(h, h2, h3, roots);
  }

  lemma RunningKept(h: Heap, h2: Heap, roots: set<nat>, r: nat)
    requires Kept(h, h2, roots) && r in roots && r in h
    ensures r in h2 && h2[r].kind == h[r].kind
  {
    assert Within(h, roots, r, 0);
  }

  lemma MainIsGray(h: Heap, allgc: seq<nat>, main: nat, w: Color, gray: seq<nat>)
    requires (w.White0? || w.White1?) && Tri(h, allgc, main, w, gray, [], {}, -1) && Seen(h, main)
    ensures gray != []
  {
    assert WellTyped(h[main]);
  }

  lemma MainReady(h: Heap, allgc: seq<nat>, main: nat, roots: set<nat>, w: Color, gray: seq<nat>, s: set<nat>)
    requires (w.White0? || w.White1?) && Tri(h, allgc, main, w, gray, [], {}, -1) && ClosedUnder(h, roots, s)
    requires main in roots && AllWhite(h, [main] + allgc, w)
    ensures Ready(h, s) && main in h && IsWhite(h[main]) && (main in s || h[main].shared)
  {
    hide Base, Ready;
    BaseReady(h, allgc, main, roots, s);
    assert main in [main] + allgc;
  }

  lemma ListsMoved(h: Heap, allgc: seq<nat>, main: nat, roots: set<nat>, w: Color, l: seq<nat>, done: set<nat>, s: set<nat>)
    requires (w.White0? || w.White1?) && Marking(h, allgc, main, roots, w, [], l, done, s)
    ensures Marking(h, allgc, main, roots, w, l, [], done, s)
  {
    hide Base, Listed, CleanBut, NoDangling, ClosedUnder, MarkedWithin;
    assert [] + l == l + [];
  }

  lemma FlipEnds(h: Heap, allgc: seq<nat>, main: nat, roots: set<nat>, w: Color, done: set<nat>, s: set<nat>, seen: set<nat>)
    requires (w.White0? || w.White1?) && Marking(h, allgc, main, roots, w, [], [], done, s)
    requires AllSeen(h, seen) && roots == seen + {main}
    ensures Base(h, allgc, main) && LiveClosed(h, roots, OtherWhite(w)) && LiveWithin(h, OtherWhite(w), s)
  {
    hide Base, Listed, CleanBut, NoDangling, ClosedUnder, LiveClosed;
    FlipIsSafe(h, allgc, main, roots, w, done);
  }

  /** While marking nothing is dead. */
  lemma MarkingLive(h0: Heap, h: Heap, allgc: seq<nat>, main: nat, roots: set<nat>, w: Color, gray: seq<nat>, rest: seq<nat>, done: set<nat>, s: set<nat>)
    requires (w.White0? || w.White1?) && Marking(h, allgc, main, roots, w, gray, rest, done, s)
    ensures Base(h, allgc, main) && LiveClosed(h, roots, w)
  {
    hide Refs, Listed, CleanBut, Base;
  }

  lemma WhitenMain(h: Heap, allgc: seq<nat>, main: nat, roots: set<nat>, w: Color, s: set<nat>)
    requires (w.White0? || w.White1?) && Base(h, allgc, main) && LiveClosed(h, roots, w) && LiveWithin(h, w, s)
    requires AllWhite(h, allgc, w) && main in roots
    ensures main in h
    ensures var h2 := h[main := h[main].(color := w)];
      Base(h2, allgc, main) && LiveClosed(h2, roots, w) && LiveWithin(h2, w, s) && AllWhite(h2, [main] + allgc, w) && Kept(h, h2, roots)
  {
    hide LiveWithin, SameGraph, Shrinks, Base;
    MainIn(h, allgc, main);
    WhitenKeeps(h, allgc, main, roots, w, main, s);
    var h2 := h[main := h[main].(color := w)];
    assert AllWhite(h2, allgc, w);
  }

  lemma MainIn(h: Heap, allgc: seq<nat>, main: nat)
    requires Base(h, allgc, main)
    ensures main in h
  {
  }

  /** Phases from `st` to `target`. */
  function Distance(st: State, target: State): nat { (Rank(target) + 8 - Rank(st)) % 8 }

  /** The way from `st` to `target` leads through the start of a cycle. */
  predicate Passes(st: State, target: State) { st != target && Rank(st) > Rank(target) }

  lemma NextCloser(st: State, target: State)
    requires st != target
    ensures Distance(NextState(st), target) < Distance(st, target)
    ensures !Passes(st, target) ==> !st.Pause? && (NextState(st) == target || !Passes(NextState(st), target))
    ensures st.CallFin? && target.Pause? ==> NextState(st) == Pause
    ensures NextState(st) != st
  {
  }

  lemma FewerCount(a: set<nat>, b: set<nat>)
    requires a <= b
    ensures |a| <= |b| && (a < b ==> |a| < |b|)
  {
    assert b == a + (b - a);
  }

  function Rank(st: State): nat {
    match st
    case Propagate => 0
    case Atomic => 1
    case SwpAllGc => 2
    case SwpFinObj => 3
    case SwpToBeFnz => 4
    case SwpEnd => 5
    case CallFin => 6
    case Pause => 7
  }

  /** A cycle given up while marking: nothing is dead, so its sweep frees nothing. */
  lemma AbandonMarking(h: Heap, allgc: seq<nat>, main: nat, roots: set<nat>, w: Color, gray: seq<nat>, rest: seq<nat>, s: set<nat>)
    requires (w.White0? || w.White1?) && Marking(h, allgc, main, roots, w, gray, rest, {}, s)
    ensures LiveWithin(h, w, h.Keys) && AllWhite(h, allgc[..0], w)
  {
    hide Refs, Listed, CleanBut, Base;
  }

  lemma OnlyReachable(h0: Heap, h1: Heap, h: Heap, allgc: seq<nat>, main: nat, roots: set<nat>, w: Color)
    requires (w.White0? || w.White1?) && Kept(h0, h1, roots) && Base(h, allgc, main)
    requires LiveWithin(h, w, ReachSet(h1, roots)) && AllWhite(h, [main] + allgc, w)
    ensures forall x :: x in h && !h[x].shared ==> Reachable(h0, roots, x)
  {
    hide Refs, SameGraph, Shrinks, Reachable;
    ReachKept(h0, h1, roots);
    forall x | x in h && !h[x].shared ensures Reachable(h0, roots, x) {
      assert x in [main] + allgc;
    }
  }

  function Stored(l: seq<nat>, i: nat, v: nat): seq<nat>
    requires i <= |l|
  {
    if i < |l| then l[i := v] else l + [v]
  }

  lemma BaseShaped(h: Heap, allgc: seq<nat>, main: nat)
    requires Base(h, allgc, main)
    ensures forall x :: x in h ==> Shaped(h[x])
  {
    hide Refs, Shaped;
    assert forall x :: x in h ==> WellTyped(h[x]);
  }

  lemma StoredWrites(h: Heap, o: nat, i: nat, v: nat, allgc: seq<nat>, main: nat)
    requires Base(h, allgc, main) && o in h && !h[o].shared && i <= |h[o].refs|
    requires !h[o].kind.Leaf? && (h[o].kind.Userdata? ==> i == 0)
    ensures Writes(h, h[o := h[o].(refs := Stored(h[o].refs, i, v))], {v})
  {
    hide Base;
    BaseShaped(h, allgc, main);
    var o2 := h[o].(refs := Stored(h[o].refs, i, v));
    forall r | r in Refs(o2) ensures r in Refs(h[o]) || r == v {
      if r in o2.refs {
        var k :| 0 <= k < |o2.refs| && o2.refs[k] == r;
        if k < |h[o].refs| && k != i { assert h[o].refs[k] in h[o].refs; }
      }
    }
    assert Shaped(h[o]);
  }

  lemma MetaWrites(h: Heap, o: nat, m: nat, allgc: seq<nat>, main: nat)
    requires Base(h, allgc, main) && o in h && !h[o].shared && !h[o].kind.Leaf?
    ensures Writes(h, h[o := h[o].(meta := To(m))], {m})
  {
    hide Base;
    BaseShaped(h, allgc, main);
    assert Shaped(h[o]);
  }

  lemma StackWrites(h: Heap, th: nat, refs: seq<nat>, allgc: seq<nat>, main: nat)
    requires Base(h, allgc, main) && th in h && h[th].kind.Thread?
    ensures Writes(h, h[th := h[th].(refs := refs)], set r | r in refs)
    ensures !h[th].color.Black?
  {
    hide Base;
    BaseShaped(h, allgc, main);
    ThreadNotBlack(h, allgc, main, th);
    ThreadOwn(h, allgc, main, th);
  }

  lemma ThreadOwn(h: Heap, allgc: seq<nat>, main: nat, th: nat)
    requires Base(h, allgc, main) && th in h && h[th].kind.Thread?
    ensures !h[th].shared
  {
    assert WellTyped(h[th]);
  }

  lemma ClearWrites(h: Heap, t: nat, i: nat, allgc: seq<nat>, main: nat)
    requires Base(h, allgc, main) && t in h && h[t].kind.Table? && !h[t].shared && i < |h[t].refs|
    ensures Writes(h, h[t := h[t].(refs := h[t].refs[..i] + h[t].refs[i + 1..])], {})
  {
    hide Base;
    BaseShaped(h, allgc, main);
  }

  function WithUpvalue(h: Heap, users: map<nat, nat>, v: nat): (h2: Heap)
    requires forall c :: c in users ==> c in h && users[c] < |h[c].refs|
    ensures h2.Keys == h.Keys
    ensures forall x :: x in h ==> h2[x] == if x in users then h[x].(refs := h[x].refs[users[x] := v]) else h[x]
  {
    map x | x in h :: if x in users then h[x].(refs := h[x].refs[users[x] := v]) else h[x]
  }

  lemma UpvalueWrites(h: Heap, users: map<nat, nat>, v: nat, allgc: seq<nat>, main: nat)
    requires Base(h, allgc, main)
    requires forall c :: c in users ==> c in h && h[c].kind.Closure? && !h[c].shared && users[c] < |h[c].refs|
    ensures Writes(h, WithUpvalue(h, users, v), {v})
  {
    hide Base;
    BaseShaped(h, allgc, main);
    var h2 := WithUpvalue(h, users, v);
    forall x | x in h ensures Written(h[x], h2[x], {v}) {
      forall r | r in Refs(h2[x]) ensures r in Refs(h[x]) || r == v {
        if x in users && r in h2[x].refs {
          var k :| 0 <= k < |h2[x].refs| && h2[x].refs[k] == r;
          if k != users[x] { assert h[x].refs[k] in h[x].refs; }
        }
      }
    }
  }

  /** The other roots were roots already. */
  lemma RootsIn(h: Heap, roots: set<nat>, roots2: set<nat>, w: Color)
    requires (w.White0? || w.White1?) && LiveClosed(h, roots, w)
    requires forall r :: r in roots2 && r !in roots ==> r in h && !IsDead(h[r], w)
    ensures LiveClosed(h, roots2, w)
  {
  }

  lemma RootsClosed(h: Heap, roots: set<nat>, roots2: set<nat>, s: set<nat>)
    requires ClosedUnder(h, roots, s)
    requires forall r :: r in roots2 && r !in roots ==> r in h && (r in s || h[r].shared)
    ensures ClosedUnder(h, roots2, s)
  {
  }

  lemma GrayClosed(h: Heap, t: nat, roots: set<nat>, s: set<nat>)
    requires t in h && h[t].color.Black? && ClosedUnder(h, roots, s) && MarkedWithin(h, s)
    ensures var h2 := h[t := h[t].(color := Gray)]; ClosedUnder(h2, roots, s) && MarkedWithin(h2, s)
  {
    hide Refs;
    SameRefsOf(h[t], h[t].(color := Gray));
  }

  lemma GrayLive(h: Heap, t: nat, allgc: seq<nat>, main: nat, roots: set<nat>, w: Color)
    requires (w.White0? || w.White1?) && t in h && h[t].color.Black? && h[t].kind.Table?
    requires Base(h, allgc, main) && LiveClosed(h, roots, w)
    ensures var h2 := h[t := h[t].(color := Gray)];
      && Base(h2, allgc, main) && LiveClosed(h2, roots, w)
      && (forall s :: LiveWithin(h, w, s) ==> LiveWithin(h2, w, s))
      && (forall l: seq<nat> :: AllWhite(h, l, w) ==> AllWhite(h2, l, w))
  {
    hide Refs, Base;
    GrayBase(h, allgc, main, t);
    SameRefsOf(h[t], h[t].(color := Gray));
  }

  lemma WhiteCons(h: Heap, id: nat, l: seq<nat>, w: Color)
    requires id in h && h[id].color == w && AllWhite(h, l, w)
    ensures AllWhite(h, [id] + l, w)
  {
  }

  lemma WhiteInsert(h: Heap, m: nat, id: nat, l: seq<nat>, w: Color)
    requires id in h && h[id].color == w && AllWhite(h, [m] + l, w)
    ensures AllWhite(h, [m] + ([id] + l), w)
  {
    assert forall x :: x in [m] + ([id] + l) ==> x == id || x in [m] + l;
  }

  lemma SharesColors(h: Heap, h2: Heap, own: set<nat>, allgc: seq<nat>, main: nat, running: nat, w: Color)
    requires Base(h, allgc, main) && Shares(h, h2, own) && running in h && h[running].kind.Thread?
    requires forall x :: x in h && (x in allgc || x == main) ==> h2[x].color == h[x].color
    ensures AllWhite(h, allgc, w) ==> AllWhite(h2, allgc, w)
    ensures AllWhite(h, [main] + allgc, w) ==> AllWhite(h2, [main] + allgc, w)
    ensures forall n :: 0 <= n <= |allgc| && AllWhite(h, allgc[..n], w) ==> AllWhite(h2, allgc[..n], w)
    ensures running in h2 && h2[running].kind.Thread? && (Seen(h, main) ==> Seen(h2, main))
  {
    hide Refs, Shaped;
    assert forall n, x :: 0 <= n <= |allgc| && x in allgc[..n] ==> x in allgc;
  }

  lemma WritesKind(h: Heap, h2: Heap, vs: set<nat>, x: nat)
    requires Writes(h, h2, vs) && x in h
    ensures x in h2 && h2[x].kind == h[x].kind && (Seen(h, x) ==> Seen(h2, x))
  {
    assert Written(h[x], h2[x], vs);
  }

  lemma OwnObject(h: Heap, allgc: seq<nat>, main: nat, o: nat)
    requires Base(h, allgc, main) && o in h && !h[o].shared
    ensures o in allgc || o == main
  {
  }

  lemma BlackMeansSweep(h: Heap, allgc: seq<nat>, main: nat, w: Color, o: nat)
    requires (w.White0? || w.White1?) && Base(h, allgc, main) && o in h && h[o].color.Black? && !h[o].shared
    ensures !AllWhite(h, [main] + allgc, w)
  {
    assert o in [main] + allgc;
  }

  function UserValue(o: Obj): Ref { if o.refs != [] then To(o.refs[0]) else None }

  lemma GrayUserdata(h: Heap, o: nat, s: set<nat>)
    requires o in h && Unmarked(h[o]) && o in s && h[o].kind.Userdata? && Ready(h, s)
    ensures var h1 := h[o := h[o].(color := Gray)]; var m := h[o].meta;
      && Ready(h1, s) && Whites(h1) < Whites(h)
      && (m.To? ==> m.id in h1 && (m.id in s || h1[m.id].shared))
  {
    ReadyRecolour(h, o, Gray, s);
    var h1, m := h[o := h[o].(color := Gray)], h[o].meta;
    assert o in Whites(h) && o !in Whites(h1);
    if m.To? { assert m.id in Refs(h[o]); }
  }

  lemma BlackUserdata(h: Heap, o: nat, g: seq<nat>, h2: Heap, g2: seq<nat>, s: set<nat>)
    requires o in h && Unmarked(h[o]) && o in s && h[o].kind.Userdata? && Ready(h, s)
    requires Marks(h[o := h[o].(color := Gray)], g, h2, g2, s)
    ensures o in h2
    ensures var h3 := h2[o := h2[o].(color := Black)]; var u := UserValue(h3[o]);
      && Ready(h3, s) && Whites(h3) < Whites(h)
      && (u.To? ==> u.id in h3 && (u.id in s || h3[u.id].shared))
  {
    hide Fresh, Clean;
    GrayUserdata(h, o, s);
    var h1 := h[o := h[o].(color := Gray)];
    ReadyMarks(h1, g, h2, g2, s);
    MarksFewer(h1, g, h2, g2, s);
    ReadyRecolour(h2, o, Black, s);
    assert Recoloured(h1[o], h2, o, s);
    var h3 := h2[o := h2[o].(color := Black)];
    assert Whites(h3) == Whites(h2);
    var u := UserValue(h3[o]);
    if u.To? { assert u.id in Refs(h3[o]); }
  }

  lemma MarkedUserdata(h: Heap, o: nat, g: seq<nat>, h2: Heap, g2: seq<nat>, h4: Heap, g4: seq<nat>, s: set<nat>)
    requires o in h && Unmarked(h[o]) && o in s && h[o].kind.Userdata? && Ready(h, s)
    requires Marks(h[o := h[o].(color := Gray)], g, h2, g2, s)
    requires h[o].meta.To? ==> Seen(h2, h[o].meta.id)
    requires o in h2 && Marks(h2[o := h2[o].(color := Black)], g2, h4, g4, s)
    requires var u := UserValue(h2[o]); u.To? ==> Seen(h4, u.id)
    ensures Marks(h, g, h4, g4, s) && Seen(h4, o)
  {
    hide Fresh, Clean;
    var h1, h3 := h[o := h[o].(color := Gray)], h2[o := h2[o].(color := Black)];
    assert Recoloured(h1[o], h2, o, s) && Recoloured(h3[o], h4, o, s);
    if h[o].meta.To? {
      assert Seen(h3, h[o].meta.id);
      SeenStays(h3, g2, h4, g4, s, h[o].meta.id);
    }
    assert Shaped(h[o]);
    UserdataClean(h4, h4[o]);
    MarksUserdata(h, g, o, h2, g2, h4, g4, s);
  }

  lemma UserdataClean(h: Heap, o: Obj)
    requires |o.refs| <= 1 && (o.meta.To? ==> Seen(h, o.meta.id)) && (UserValue(o).To? ==> Seen(h, UserValue(o).id))
    ensures Clean(h, o)
  {
  }
}
