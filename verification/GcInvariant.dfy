/**
 * The invariants of the incremental collector: the tri-colour invariant with its gray lists while
 * marking, and what a sweep may still find afterwards.
 */
module GcInvariant {
  import opened GcHeap

  datatype State = Propagate | Atomic | SwpAllGc | SwpFinObj | SwpToBeFnz | SwpEnd | CallFin | Pause

  predicate KeepInvariant(st: State) { st.Propagate? || st.Atomic? }

  predicate IsSweepPhase(st: State) { st.SwpAllGc? || st.SwpFinObj? || st.SwpToBeFnz? || st.SwpEnd? }

  /** The sweep pointer: null, or pointing at the link that follows the first n objects of its list. */
  datatype Cursor = Null | After(n: nat)

  predicate WellTyped(o: Obj) {
    && Shaped(o)
    && (o.kind.Thread? ==> !o.color.Black? && !o.shared)
    && (!Traversed(o.kind) && !o.shared ==> !o.color.Gray?)
  }

  /** A closed set of a well-formed heap can be marked through. */
  lemma BaseReady(h: Heap, allgc: seq<nat>, main: nat, roots: set<nat>, s: set<nat>)
    requires Base(h, allgc, main) && ClosedUnder(h, roots, s)
    ensures Ready(h, s)
  {
    hide Refs, Shaped;
    assert forall o :: o in h ==> WellTyped(h[o]);
  }

  /** Shared objects, of this state or of another, refer to shared objects only. */
  ghost predicate SharedClosed(h: Heap) {
    forall o, r :: o in h && h[o].shared && r in Refs(h[o]) ==> r in h && h[r].shared
  }

  /** The objects of this state are those of its list and its main thread; all others are shared. */
  ghost predicate Base(h: Heap, allgc: seq<nat>, main: nat) {
    && Distinct(allgc)
    && (forall o :: o in allgc ==> o in h && o != main)
    && main in h && h[main].kind.Thread?
    && (forall o :: o in h ==> o in allgc || o == main || h[o].shared)
    && (forall o :: o in h ==> WellTyped(h[o]))
    && SharedClosed(h)
  }

  /** Whatever is not dead refers to nothing dead, and no root is dead. */
  ghost predicate LiveClosed(h: Heap, roots: set<nat>, w: Color)
    requires w.White0? || w.White1?
  {
    && (forall r :: r in roots ==> r in h && !IsDead(h[r], w))
    && (forall o, r :: o in h && !IsDead(h[o], w) && r in Refs(h[o]) ==> r in h && !IsDead(h[r], w))
  }

  /** Live objects are kept whole, and every reachable object is live. */
  lemma ReachableIsLive(h: Heap, roots: set<nat>, w: Color, x: nat)
    requires (w.White0? || w.White1?) && LiveClosed(h, roots, w) && Reachable(h, roots, x)
    ensures x in h && !IsDead(h[x], w)
  {
    var s := set o | o in h && !IsDead(h[o], w);
    ReachClosed(h, roots, s, x);
  }

  /** Listed once, in exactly one of the two lists, gray, of this state and of a kind that is traversed. */
  ghost predicate Listed(h: Heap, allgc: seq<nat>, main: nat, l: seq<nat>) {
    && Distinct(l)
    && (forall o :: o in l ==> o in h && h[o].color.Gray? && Traversed(h[o].kind) && (o in allgc || o == main))
  }

  predicate CleanBut(h: Heap, o: Obj, hole: int) { forall r :: r in Refs(o) ==> Seen(h, r) || r == hole }

  /**
   * The main invariant while marking: black objects, and the threads in `done` that the atomic
   * phase has traversed for good, refer to nothing unmarked (but `hole`, just stored, if any);
   * every gray object is in `gray`, in `rest`, or done.
   */
  ghost predicate Tri(h: Heap, allgc: seq<nat>, main: nat, w: Color, gray: seq<nat>, rest: seq<nat>, done: set<nat>, hole: int)
    requires w.White0? || w.White1?
  {
    && Base(h, allgc, main)
    && NoDangling(h)
    && (forall o :: o in h && !h[o].shared ==> h[o].color != OtherWhite(w))
    && (forall o :: o in h && (h[o].color.Black? || o in done) ==> CleanBut(h, h[o], hole))
    && Listed(h, allgc, main, gray + rest)
    && (forall o :: o in h && h[o].color.Gray? && !h[o].shared ==> o in gray || o in rest || o in done)
  }

  /** All marked objects lie in `s`. */
  ghost predicate MarkedWithin(h: Heap, s: set<nat>) {
    forall o :: o in h && !h[o].shared && !IsWhite(h[o]) ==> o in s
  }

  /** Everything not dead lies in `s`. */
  ghost predicate LiveWithin(h: Heap, w: Color, s: set<nat>)
    requires w.White0? || w.White1?
  {
    forall o :: o in h && !h[o].shared && !IsDead(h[o], w) ==> o in s
  }

  ghost predicate AllWhite(h: Heap, l: seq<nat>, w: Color) {
    forall o :: o in l ==> o in h && h[o].color == w
  }

  /** All that holds while marking, between two of its steps. */
  ghost predicate Marking(h: Heap, allgc: seq<nat>, main: nat, roots: set<nat>, w: Color,
                          gray: seq<nat>, rest: seq<nat>, done: set<nat>, start: set<nat>)
    requires w.White0? || w.White1?
  {
    && Tri(h, allgc, main, w, gray, rest, done, -1) && Seen(h, main)
    && ClosedUnder(h, roots, start) && MarkedWithin(h, start)
  }

  /** `start`: the objects reachable when the cycle began, and those made since. */
  ghost predicate Phase(st: State, h: Heap, allgc: seq<nat>, main: nat, roots: set<nat>, w: Color,
                        gray: seq<nat>, again: seq<nat>, cur: Cursor, start: set<nat>)
    requires w.White0? || w.White1?
  {
    match st
    case Propagate => Marking(h, allgc, main, roots, w, gray, again, {}, start) && gray != []
    case Atomic => Marking(h, allgc, main, roots, w, gray, again, {}, start)
    case SwpAllGc =>
      && LiveWithin(h, w, start)
      && (cur.After? ==> cur.n <= |allgc| && AllWhite(h, allgc[..cur.n], w))
      && (cur.Null? ==> AllWhite(h, allgc, w))
    case SwpFinObj => AllWhite(h, allgc, w) && LiveWithin(h, w, start)
    case SwpToBeFnz => AllWhite(h, allgc, w) && LiveWithin(h, w, start)
    case SwpEnd => AllWhite(h, allgc, w) && LiveWithin(h, w, start)
    case CallFin => AllWhite(h, [main] + allgc, w) && LiveWithin(h, w, start)
    case Pause => AllWhite(h, [main] + allgc, w)
  }

  // ---------------------------------------------------------------- marking keeps the invariant

  lemma MarksBase(h: Heap, g: seq<nat>, h2: Heap, g2: seq<nat>, s: set<nat>, allgc: seq<nat>, main: nat)
    requires Marks(h, g, h2, g2, s) && Base(h, allgc, main)
    ensures Base(h2, allgc, main)
    ensures NoDangling(h) ==> NoDangling(h2)
  {
    hide Refs, Clean;
    assert forall o :: o in h ==> Recoloured(h[o], h2, o, s);
    forall o | o in h2 ensures WellTyped(h2[o]) { SameRefsOf(h[o], h2[o]); assert WellTyped(h[o]); }
    forall o, r | o in h2 && h2[o].shared && r in Refs(h2[o]) ensures r in h2 && h2[r].shared { SameRefsOf(h[o], h2[o]); }
    if NoDangling(h) {
      forall o, r | o in h2 && r in Refs(h2[o]) ensures r in h2 { SameRefsOf(h[o], h2[o]); }
    }
  }

  lemma SameRefsOf(a: Obj, b: Obj)
    requires SameRefs(a, b)
    ensures Refs(a) == Refs(b)
  {
  }

  lemma ListedMore(h: Heap, h2: Heap, allgc: seq<nat>, main: nat, n: seq<nat>, g: seq<nat>, rest: seq<nat>)
    requires Base(h, allgc, main) && Listed(h, allgc, main, g + rest) && h.Keys == h2.Keys && Fresh(h, h2, n)
    requires forall x :: x in h && !Unmarked(h[x]) ==> h2[x].color == h[x].color
    requires forall x :: x in h ==> h2[x].kind == h[x].kind && h2[x].shared == h[x].shared
    requires forall x :: x in n ==> Traversed(h[x].kind)
    ensures Listed(h2, allgc, main, (n + g) + rest)
  {
    var l, l2 := g + rest, (n + g) + rest;
    assert l2 == n + l;
    assert forall x :: x in l2 <==> x in n || x in l;
    forall i, j | 0 <= i < j < |l2| ensures l2[i] != l2[j] {
      if j >= |n| {
        assert l2[j] == l[j - |n|] && l2[j] in l;
        if i < |n| { assert l2[i] == n[i] && n[i] in n; } else { assert l2[i] == l[i - |n|]; }
      } else {
        assert l2[i] == n[i] && l2[j] == n[j];
      }
    }
  }

  lemma MarksTri(h: Heap, g: seq<nat>, h2: Heap, g2: seq<nat>, s: set<nat>,
                 allgc: seq<nat>, main: nat, w: Color, rest: seq<nat>, done: set<nat>, hole: int)
    requires w.White0? || w.White1?
    requires Tri(h, allgc, main, w, g, rest, done, hole) && Marks(h, g, h2, g2, s)
    ensures Tri(h2, allgc, main, w, g2, rest, done, hole)
    ensures MarkedWithin(h, s) ==> MarkedWithin(h2, s)
  {
    hide Refs, Clean, Base, NoDangling, Listed, CleanBut, Fresh;
    MarksBase(h, g, h2, g2, s, allgc, main);
    var n := g2[..|g2| - |g|];
    assert g2 == n + g;
    assert forall o :: o in h ==> Recoloured(h[o], h2, o, s);
    FreshMembers(h, h2, n);
    ListedMore(h, h2, allgc, main, n, g, rest);
    forall o | o in h2 && (h2[o].color.Black? || o in done) ensures CleanBut(h2, h2[o], hole) {
      if h[o].color.Black? || o in done { CleanButStays(h, g, h2, g2, s, o, hole); } else { CleanIsBut(h2, h2[o], hole); }
    }
  }

  lemma FreshMembers(h: Heap, h2: Heap, n: seq<nat>)
    requires h.Keys == h2.Keys && Fresh(h, h2, n)
    ensures forall x :: x in n <==> x in h && Unmarked(h[x]) && h2[x].color.Gray?
  {
  }

  lemma CleanIsBut(h: Heap, o: Obj, hole: int)
    requires Clean(h, o)
    ensures CleanBut(h, o, hole)
  {
  }

  lemma CleanButStays(h: Heap, g: seq<nat>, h2: Heap, g2: seq<nat>, s: set<nat>, o: nat, hole: int)
    requires Marks(h, g, h2, g2, s) && o in h && CleanBut(h, h[o], hole)
    ensures CleanBut(h2, h2[o], hole)
  {
    hide Refs;
    assert Recoloured(h[o], h2, o, s);
    SameRefsOf(h[o], h2[o]);
    forall r | r in Refs(h2[o]) ensures Seen(h2, r) || r == hole {
      if Seen(h, r) { SeenStays(h, g, h2, g2, s, r); }
    }
  }

  /** Once the stored value is marked the hole is closed. */
  lemma HoleClosed(h: Heap, allgc: seq<nat>, main: nat, w: Color, gray: seq<nat>, rest: seq<nat>, done: set<nat>, hole: nat)
    requires w.White0? || w.White1?
    requires Tri(h, allgc, main, w, gray, rest, done, hole) && Seen(h, hole)
    ensures Tri(h, allgc, main, w, gray, rest, done, -1)
  {
  }

  /**
   * One round of propagatemark: `o` leaves the gray list and turns black, unless it is a thread,
   * and is then traversed. A thread goes to `rest`, or is done when no mutator runs any more.
   */
  lemma PropagateTri(h: Heap, allgc: seq<nat>, main: nat, w: Color, gray: seq<nat>, rest: seq<nat>, done: set<nat>,
                     h2: Heap, g2: seq<nat>, s: set<nat>, again: bool)
    requires w.White0? || w.White1?
    requires gray != [] && Tri(h, allgc, main, w, gray, rest, done, -1)
    requires Marks(Popped(h, gray[0]), gray[1..], h2, g2, s) && Clean(h2, h2[gray[0]])
    ensures var o := gray[0]; var thread := h[o].kind.Thread?;
      Tri(h2, allgc, main, w, g2, if thread && again then [o] + rest else rest,
          if thread && !again then done + {o} else done, -1)
    ensures MarkedWithin(h, s) ==> MarkedWithin(h2, s)
  {
    hide Refs, Clean, CleanBut, Base, NoDangling, Listed, Fresh;
    var o := gray[0];
    HeadListed(h, allgc, main, gray, rest);
    var h1, thread := Popped(h, o), h[o].kind.Thread?;
    var rest2, done2 := if thread && again then [o] + rest else rest, if thread && !again then done + {o} else done;
    PoppedBase(h, allgc, main, o);
    PoppedListed(h, allgc, main, gray, rest, rest2);
    var n := g2[..|g2| - |gray[1..]|];
    MarksBase(h1, gray[1..], h2, g2, s, allgc, main);
    FreshMembers(h1, h2, n);
    assert forall x :: x in h1 ==> Recoloured(h1[x], h2, x, s);
    ListedMore(h1, h2, allgc, main, n, gray[1..], rest2);
    assert g2 == n + gray[1..];
    GrayKept(h, gray, rest, done, h2, g2, n, rest2, done2);
    forall x | x in h2 && (h2[x].color.Black? || x in done2) ensures CleanBut(h2, h2[x], -1) {
      if x == o { CleanIsBut(h2, h2[x], -1); }
      else { OthersClean(h, o, x, gray[1..], h2, g2, s, done); }
    }
  }

  lemma GrayKept(h: Heap, gray: seq<nat>, rest: seq<nat>, done: set<nat>, h2: Heap, g2: seq<nat>, n: seq<nat>, rest2: seq<nat>, done2: set<nat>)
    requires gray != [] && gray[0] in h && h.Keys == h2.Keys && g2 == n + gray[1..]
    requires forall x :: x in h && h[x].color.Gray? && !h[x].shared ==> x in gray || x in rest || x in done
    requires forall x :: x in h ==> h2[x].shared == h[x].shared
    requires forall x :: x in h && x != gray[0] && h2[x].color.Gray? && !h[x].color.Gray? ==> x in n
    requires gray[0] in rest2 || gray[0] in done2 || !h2[gray[0]].color.Gray?
    requires (forall x :: x in rest ==> x in rest2) && done <= done2
    ensures forall x :: x in h2 && h2[x].color.Gray? && !h2[x].shared ==> x in g2 || x in rest2 || x in done2
  {
    assert forall x :: x in gray <==> x == gray[0] || x in gray[1..];
  }

  lemma OthersClean(h: Heap, o: nat, x: nat, g: seq<nat>, h2: Heap, g2: seq<nat>, s: set<nat>, done: set<nat>)
    requires o in h && x in h && x != o && h[o].color.Gray?
    requires h[x].color.Black? || x in done ==> CleanBut(h, h[x], -1)
    requires Marks(Popped(h, o), g, h2, g2, s) && (h2[x].color.Black? || x in done)
    ensures CleanBut(h2, h2[x], -1)
  {
    hide Refs, Clean, CleanBut, Fresh;
    assert Recoloured(Popped(h, o)[x], h2, x, s);
    if h[x].color.Black? || x in done {
      PoppedClean(h, o, x);
      CleanButStays(Popped(h, o), g, h2, g2, s, x, -1);
    } else {
      CleanIsBut(h2, h2[x], -1);
    }
  }

  function Popped(h: Heap, o: nat): Heap
    requires o in h
  {
    if h[o].kind.Thread? then h else h[o := h[o].(color := Black)]
  }

  lemma HeadListed(h: Heap, allgc: seq<nat>, main: nat, gray: seq<nat>, rest: seq<nat>)
    requires gray != [] && Listed(h, allgc, main, gray + rest)
    ensures gray[0] in h && h[gray[0]].color.Gray? && Traversed(h[gray[0]].kind) && (gray[0] in allgc || gray[0] == main)
    ensures gray[0] !in gray[1..] && gray[0] !in rest
  {
    var l := gray + rest;
    assert l[0] == gray[0] && l[0] in l;
    assert forall i :: 0 <= i < |gray[1..]| ==> gray[1..][i] == l[i + 1];
    assert forall i :: 0 <= i < |rest| ==> rest[i] == l[|gray| + i];
  }

  lemma PoppedBase(h: Heap, allgc: seq<nat>, main: nat, o: nat)
    requires Base(h, allgc, main) && o in h && Traversed(h[o].kind)
    ensures Base(Popped(h, o), allgc, main)
    ensures NoDangling(h) ==> NoDangling(Popped(h, o))
  {
    hide Refs;
    SameRefsOf(h[o], Popped(h, o)[o]);
    assert WellTyped(h[o]);
  }

  lemma PoppedListed(h: Heap, allgc: seq<nat>, main: nat, gray: seq<nat>, rest: seq<nat>, rest2: seq<nat>)
    requires gray != [] && Listed(h, allgc, main, gray + rest) && gray[0] in h
    requires rest2 == rest || (h[gray[0]].kind.Thread? && rest2 == [gray[0]] + rest)
    ensures Listed(Popped(h, gray[0]), allgc, main, gray[1..] + rest2)
  {
    HeadListed(h, allgc, main, gray, rest);
    var o, l, l2 := gray[0], gray + rest, gray[1..] + rest2;
    var k := |gray| - 1;
    forall i, j | 0 <= i < j < |l2| ensures l2[i] != l2[j] {
      if rest2 == rest { assert l2[i] == l[i + 1] && l2[j] == l[j + 1]; }
      else { assert l2[i] == l[Place(i, k)] && l2[j] == l[Place(j, k)]; }
    }
    forall x | x in l2 ensures x in l { }
  }

  /** Where the list with its head moved to position k had its i-th element. */
  function Place(i: int, k: int): int { if i < k then i + 1 else if i == k then 0 else i }

  lemma PoppedClean(h: Heap, o: nat, x: nat)
    requires o in h && x in h && x != o && CleanBut(h, h[x], -1) && h[o].color.Gray?
    ensures CleanBut(Popped(h, o), Popped(h, o)[x], -1)
  {
    hide Refs;
    forall r | r in Refs(h[x]) ensures Seen(Popped(h, o), r) { assert Seen(h, r) || r == -1; }
  }

  lemma MarksClosed(h: Heap, g: seq<nat>, h2: Heap, g2: seq<nat>, s: set<nat>, roots: set<nat>)
    requires Marks(h, g, h2, g2, s) && ClosedUnder(h, roots, s)
    ensures ClosedUnder(h2, roots, s)
  {
    hide Refs;
    assert forall o :: o in h ==> Recoloured(h[o], h2, o, s);
    forall o, r | o in h2 && (o in s || h2[o].shared) && r in Refs(h2[o]) ensures r in h2 && (r in s || h2[r].shared) {
      SameRefsOf(h[o], h2[o]);
    }
  }

  lemma MarksMarking(h: Heap, g: seq<nat>, h2: Heap, g2: seq<nat>, s: set<nat>,
                     allgc: seq<nat>, main: nat, roots: set<nat>, w: Color, rest: seq<nat>, done: set<nat>)
    requires w.White0? || w.White1?
    requires Marking(h, allgc, main, roots, w, g, rest, done, s) && Marks(h, g, h2, g2, s)
    ensures Marking(h2, allgc, main, roots, w, g2, rest, done, s)
  {
    hide Tri, Marks, ClosedUnder, MarkedWithin, Seen;
    MarksTri(h, g, h2, g2, s, allgc, main, w, rest, done, -1);
    MarksClosed(h, g, h2, g2, s, roots);
    SeenStays(h, g, h2, g2, s, main);
  }

  /** What propagatemark needs to know of the object it takes. */
  lemma NextGray(h: Heap, allgc: seq<nat>, main: nat, roots: set<nat>, w: Color, gray: seq<nat>, rest: seq<nat>, done: set<nat>, s: set<nat>)
    requires w.White0? || w.White1?
    requires Marking(h, allgc, main, roots, w, gray, rest, done, s) && gray != []
    ensures Ready(h, s) && gray[0] in h && h[gray[0]].color.Gray? && Traversed(h[gray[0]].kind)
    ensures gray[0] in s || h[gray[0]].shared
  {
    hide Base, Ready, ClosedUnder, Listed;
    HeadListed(h, allgc, main, gray, rest);
    BaseReady(h, allgc, main, roots, s);
  }

  lemma PropagateMarking(h: Heap, allgc: seq<nat>, main: nat, roots: set<nat>, w: Color, gray: seq<nat>, rest: seq<nat>, done: set<nat>,
                         h2: Heap, g2: seq<nat>, s: set<nat>, again: bool)
    requires w.White0? || w.White1?
    requires gray != [] && Marking(h, allgc, main, roots, w, gray, rest, done, s) && gray[0] in h && h[gray[0]].color.Gray?
    requires Marks(Popped(h, gray[0]), gray[1..], h2, g2, s) && gray[0] in h2 && Clean(h2, h2[gray[0]])
    ensures var o := gray[0]; var thread := h[o].kind.Thread?;
      Marking(h2, allgc, main, roots, w, g2, if thread && again then [o] + rest else rest,
              if thread && !again then done + {o} else done, s)
    ensures Whites(h2) < Whites(h) || (Whites(h2) == Whites(h) && |g2| < |gray|)
  {
    hide Tri, Marks, ClosedUnder, MarkedWithin, Clean;
    var h1 := Popped(h, gray[0]);
    PropagateTri(h, allgc, main, w, gray, rest, done, h2, g2, s, again);
    PoppedClosed(h, gray[0], roots, s);
    MarksClosed(h1, gray[1..], h2, g2, s, roots);
    SeenStays(h1, gray[1..], h2, g2, s, main);
    assert Whites(h1) == Whites(h);
    MarksFewer(h1, gray[1..], h2, g2, s);
  }

  lemma PoppedClosed(h: Heap, o: nat, roots: set<nat>, s: set<nat>)
    requires o in h && ClosedUnder(h, roots, s)
    ensures ClosedUnder(Popped(h, o), roots, s)
  {
    hide Refs;
    SameRefsOf(h[o], Popped(h, o)[o]);
  }

  // ---------------------------------------------------------------- the end of the atomic phase

  /** With nothing gray left to visit and the roots marked, the unmarked objects can be given up. */
  lemma FlipIsSafe(h: Heap, allgc: seq<nat>, main: nat, roots: set<nat>, w: Color, done: set<nat>)
    requires w.White0? || w.White1?
    requires Tri(h, allgc, main, w, [], [], done, -1)
    requires forall r :: r in roots ==> Seen(h, r)
    ensures LiveClosed(h, roots, OtherWhite(w))
    ensures forall o :: o in h && !h[o].shared && !IsDead(h[o], OtherWhite(w)) ==> !IsWhite(h[o])
  {
    hide Refs;
    var w2 := OtherWhite(w);
    forall o, r | o in h && !IsDead(h[o], w2) && r in Refs(h[o]) ensures r in h && !IsDead(h[r], w2) {
      if !h[o].shared {
        assert CleanBut(h, h[o], -1);
        assert Seen(h, r);
      }
    }
  }

  /** A state in which all objects of this state have the current white starts a cycle. */
  lemma WhiteStart(h: Heap, allgc: seq<nat>, main: nat, roots: set<nat>, w: Color)
    requires w.White0? || w.White1?
    requires Base(h, allgc, main) && LiveClosed(h, roots, w) && AllWhite(h, [main] + allgc, w)
    ensures NoDangling(h)
    ensures Tri(h, allgc, main, w, [], [], {}, -1)
    ensures ClosedUnder(h, roots, ReachSet(h, roots)) && MarkedWithin(h, ReachSet(h, roots))
  {
    forall o | o in h && !h[o].shared ensures h[o].color == w {
      assert o in [main] + allgc;
    }
    forall o | o in h && h[o].color.Black? ensures CleanBut(h, h[o], -1) {
    }
    ReachSetClosed(h, roots);
  }

  // ---------------------------------------------------------------- sweeping

  /** A dead object is taken out of the list and freed. */
  lemma FreeKeeps(h: Heap, allgc: seq<nat>, main: nat, roots: set<nat>, w: Color, n: nat, start: set<nat>)
    requires (w.White0? || w.White1?) && n < |allgc| && Base(h, allgc, main) && IsDead(h[allgc[n]], w)
    requires LiveClosed(h, roots, w) && LiveWithin(h, w, start) && AllWhite(h, allgc[..n], w)
    ensures var h2, l2 := h - {allgc[n]}, allgc[..n] + allgc[n + 1..];
      && Base(h2, l2, main) && LiveClosed(h2, roots, w) && LiveWithin(h2, w, start) && AllWhite(h2, l2[..n], w)
      && SameGraph(h, h2, roots) && Shrinks(h, h2)
  {
    hide Refs, Base, LiveClosed, LiveWithin, SameGraph, Shrinks;
    BaseListed(h, allgc, main, n);
    TakenOut(allgc, n);
    FreeBase(h, allgc, main, n);
    FreeLive(h, roots, w, allgc[n], start);
  }

  lemma BaseListed(h: Heap, allgc: seq<nat>, main: nat, n: nat)
    requires n < |allgc| && Base(h, allgc, main)
    ensures Distinct(allgc) && allgc[n] in h && allgc[n] !in allgc[..n]
  {
    hide Refs;
    assert allgc[n] in allgc;
  }

  lemma FreeLive(h: Heap, roots: set<nat>, w: Color, c: nat, start: set<nat>)
    requires (w.White0? || w.White1?) && c in h && IsDead(h[c], w)
    requires LiveClosed(h, roots, w) && LiveWithin(h, w, start)
    ensures LiveClosed(h - {c}, roots, w) && LiveWithin(h - {c}, w, start)
    ensures SameGraph(h, h - {c}, roots) && Shrinks(h, h - {c})
  {
    hide Refs, Reachable;
    forall x | x in h && Reachable(h, roots, x) ensures x in h - {c} && SameRefs(h[x], (h - {c})[x]) {
      ReachableIsLive(h, roots, w, x);
    }
  }

  lemma FreeBase(h: Heap, allgc: seq<nat>, main: nat, n: nat)
    requires n < |allgc| && Base(h, allgc, main) && allgc[n] in h && !h[allgc[n]].shared
    ensures Base(h - {allgc[n]}, allgc[..n] + allgc[n + 1..], main)
  {
    hide Refs;
    TakenOut(allgc, n);
    assert allgc[n] in allgc;
  }

  lemma TakenOut(l: seq<nat>, n: nat)
    requires n < |l| && Distinct(l)
    ensures var l2 := l[..n] + l[n + 1..];
      Distinct(l2) && l2[..n] == l[..n] && forall x :: x in l2 <==> x in l && x != l[n]
  {
    var l2 := l[..n] + l[n + 1..];
    forall o | o in l && o != l[n] ensures o in l2 {
      var i :| 0 <= i < |l| && l[i] == o;
      assert l2[if i < n then i else i - 1] == o;
    }
    forall o | o in l2 ensures o in l && o != l[n] {
      var i :| 0 <= i < |l2| && l2[i] == o;
      assert o == l[if i < n then i else i + 1];
    }
  }

  /** A live object turns white again. */
  lemma WhitenKeeps(h: Heap, allgc: seq<nat>, main: nat, roots: set<nat>, w: Color, c: nat, start: set<nat>)
    requires (w.White0? || w.White1?) && c in h && Base(h, allgc, main) && !IsDead(h[c], w) && (c in allgc || c == main)
    requires LiveClosed(h, roots, w) && LiveWithin(h, w, start)
    ensures var h2 := h[c := h[c].(color := w)];
      && Base(h2, allgc, main) && LiveClosed(h2, roots, w) && LiveWithin(h2, w, start)
      && SameGraph(h, h2, roots) && Shrinks(h, h2)
      && forall l: seq<nat> :: AllWhite(h, l, w) ==> AllWhite(h2, l, w)
  {
    hide Refs, Base;
    var h2 := h[c := h[c].(color := w)];
    SameRefsOf(h[c], h2[c]);
    WhitenBase(h, allgc, main, w, c);
  }

  lemma WhitenBase(h: Heap, allgc: seq<nat>, main: nat, w: Color, c: nat)
    requires (w.White0? || w.White1?) && c in h && Base(h, allgc, main)
    ensures Base(h[c := h[c].(color := w)], allgc, main)
  {
    hide Refs;
    var h2 := h[c := h[c].(color := w)];
    SameRefsOf(h[c], h2[c]);
    assert WellTyped(h[c]);
    if h[c].kind.Leaf? { assert Refs(h2[c]) == []; }
  }

  /** Collector steps compose. */
  lemma PreservesTrans(h: Heap, h2: Heap, h3: Heap, roots: set<nat>)
    requires SameGraph(h, h2, roots) && Shrinks(h, h2) && SameGraph(h2, h3, roots) && Shrinks(h2, h3)
    ensures SameGraph(h, h3, roots) && Shrinks(h, h3)
  {
    ReachKept(h, h2, roots);
  }

  /** Marking leaves the graph as it was. */
  lemma MarksGraph(h: Heap, g: seq<nat>, h2: Heap, g2: seq<nat>, s: set<nat>, roots: set<nat>)
    requires Marks(h, g, h2, g2, s)
    ensures SameGraph(h, h2, roots) && Shrinks(h, h2)
  {
    assert forall o :: o in h ==> Recoloured(h[o], h2, o, s);
  }
}
