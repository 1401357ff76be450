/** What the mutator may do to the heap between two collector steps, and what that keeps. */
module GcWrites {
  import opened GcHeap
  import opened GcInvariant

  /** References change; nothing new is referred to but the values `vs`. */
  ghost predicate Writes(h: Heap, h2: Heap, vs: set<nat>) {
    && h2.Keys == h.Keys
    && forall x :: x in h ==> Written(h[x], h2[x], vs)
  }

  ghost predicate Written(o: Obj, o2: Obj, vs: set<nat>) {
    && o2.color == o.color && o2.kind == o.kind && o2.shared == o.shared
    && (o.shared ==> o2 == o)
    && Shaped(o2)
    && (forall r :: r in Refs(o2) ==> r in Refs(o) || r in vs)
  }

  lemma WritesBase(h: Heap, h2: Heap, vs: set<nat>, allgc: seq<nat>, main: nat)
    requires Base(h, allgc, main) && Writes(h, h2, vs)
    ensures Base(h2, allgc, main)
  {
    hide Refs, Shaped;
    assert forall x :: x in h ==> Written(h[x], h2[x], vs);
    forall x | x in h2 ensures WellTyped(h2[x]) { assert WellTyped(h[x]); }
  }

  lemma WritesLive(h: Heap, h2: Heap, vs: set<nat>, roots: set<nat>, w: Color)
    requires (w.White0? || w.White1?) && LiveClosed(h, roots, w) && Writes(h, h2, vs)
    requires forall v :: v in vs ==> v in h && !IsDead(h[v], w)
    ensures LiveClosed(h2, roots, w)
    ensures forall s :: LiveWithin(h, w, s) ==> LiveWithin(h2, w, s)
    ensures forall l: seq<nat> :: AllWhite(h, l, w) ==> AllWhite(h2, l, w)
  {
    hide Refs, Shaped;
    assert forall x :: x in h ==> Written(h[x], h2[x], vs);
  }

  lemma WritesClosed(h: Heap, h2: Heap, vs: set<nat>, roots: set<nat>, s: set<nat>)
    requires ClosedUnder(h, roots, s) && Writes(h, h2, vs)
    requires forall v :: v in vs ==> v in h && (v in s || h[v].shared)
    ensures ClosedUnder(h2, roots, s)
    ensures MarkedWithin(h, s) ==> MarkedWithin(h2, s)
  {
    hide Refs, Shaped;
    assert forall x :: x in h ==> Written(h[x], h2[x], vs);
  }

  /** A write opens at most the hole of the value stored into something black. */
  lemma WritesTri(h: Heap, h2: Heap, vs: set<nat>, allgc: seq<nat>, main: nat, w: Color, gray: seq<nat>, rest: seq<nat>, hole: int)
    requires (w.White0? || w.White1?) && Tri(h, allgc, main, w, gray, rest, {}, -1) && Writes(h, h2, vs)
    requires forall v :: v in vs ==> v in h
    requires forall x, v :: x in h && h[x].color.Black? && h2[x] != h[x] && v in vs ==> Seen(h, v) || v == hole
    ensures Tri(h2, allgc, main, w, gray, rest, {}, hole)
  {
    hide Refs, Shaped, Base;
    WritesBase(h, h2, vs, allgc, main);
    assert forall x :: x in h ==> Written(h[x], h2[x], vs);
    forall x | x in h2 && h2[x].color.Black? ensures CleanBut(h2, h2[x], hole) {
      assert CleanBut(h, h[x], -1);
      forall r | r in Refs(h2[x]) ensures Seen(h2, r) || r == hole {
        if r in Refs(h[x]) { assert Seen(h, r); }
      }
    }
  }

  /** The backward barrier: the black table goes back to the gray ones, hole and all. */
  lemma BackTri(h: Heap, h2: Heap, t: nat, allgc: seq<nat>, main: nat, w: Color, gray: seq<nat>, rest: seq<nat>, hole: int)
    requires (w.White0? || w.White1?) && Tri(h, allgc, main, w, gray, rest, {}, -1)
    requires t in h && h[t].color.Black? && h[t].kind.Table? && !h[t].shared
    requires Tri(h2, allgc, main, w, gray, rest, {}, hole) && h2.Keys == h.Keys
    requires forall x :: x in h && x != t ==> h2[x] == h[x]
    requires h2[t].color.Black? && h2[t].kind.Table? && !h2[t].shared
    ensures Tri(h2[t := h2[t].(color := Gray)], allgc, main, w, gray, [t] + rest, {}, -1)
  {
    hide Refs, Base, Listed;
    var h3 := h2[t := h2[t].(color := Gray)];
    GrayBase(h2, allgc, main, t);
    GrayListed(h2, allgc, main, gray, rest, t);
    forall x | x in h3 && h3[x].color.Black? ensures CleanBut(h3, h3[x], -1) {
      assert CleanBut(h, h[x], -1);
      forall r | r in Refs(h3[x]) ensures Seen(h3, r) { assert Seen(h, r); }
    }
  }

  lemma GrayBase(h: Heap, allgc: seq<nat>, main: nat, t: nat)
    requires Base(h, allgc, main) && t in h && h[t].kind.Table?
    ensures Base(h[t := h[t].(color := Gray)], allgc, main)
    ensures NoDangling(h) ==> NoDangling(h[t := h[t].(color := Gray)])
  {
    hide Refs;
    SameRefsOf(h[t], h[t].(color := Gray));
    assert WellTyped(h[t]);
  }

  lemma GrayListed(h: Heap, allgc: seq<nat>, main: nat, gray: seq<nat>, rest: seq<nat>, t: nat)
    requires Base(h, allgc, main) && t in h && h[t].color.Black? && h[t].kind.Table? && !h[t].shared
    requires Listed(h, allgc, main, gray + rest)
    ensures Listed(h[t := h[t].(color := Gray)], allgc, main, gray + ([t] + rest))
  {
    hide Refs;
    var l, l2, k := gray + rest, gray + ([t] + rest), |gray|;
    assert t !in l;
    assert forall i :: 0 <= i < |l2| ==> l2[i] == if i < k then l[i] else if i == k then t else l[i - 1];
    forall x | x in l2 ensures x == t || x in l {
    }
    forall i, j | 0 <= i < j < |l2| ensures l2[i] != l2[j] {
      if i == k { assert l[j - 1] in l; }
      else if j == k { assert l[i] in l; }
      else { assert l[if i < k then i else i - 1] != l[if j < k then j else j - 1]; }
    }
  }

  // ---------------------------------------------------------------- new objects

  function NewObj(k: Kind, w: Color): Obj { Obj(k, w, false, None, []) }

  /** `id` was free; it becomes a new object on the stack of thread `th`. */
  function Created(h: Heap, id: nat, k: Kind, w: Color, th: nat): Heap
    requires th in h && id !in h
  {
    h[id := NewObj(k, w)][th := h[th].(refs := h[th].refs + [id])]
  }

  lemma CreatedRefs(h: Heap, id: nat, k: Kind, w: Color, th: nat)
    requires (w.White0? || w.White1?) && th in h && id !in h && h[th].kind.Thread?
    ensures var h2 := Created(h, id, k, w, th);
      && Refs(h2[id]) == [] && (forall r :: r in Refs(h2[th]) <==> r in Refs(h[th]) || r == id)
      && (forall x :: x in h && x != th ==> h2[x] == h[x]) && h2.Keys == h.Keys + {id} && h2[th].color == h[th].color
      && h2[th].kind == h[th].kind && h2[th].shared == h[th].shared && Shaped(h2[th])
  {
    var h2 := Created(h, id, k, w, th);
    assert Refs(h2[th]) == Refs(h[th]) + [id];
  }

  lemma CreatedBase(h: Heap, id: nat, k: Kind, w: Color, th: nat, allgc: seq<nat>, main: nat)
    requires (w.White0? || w.White1?) && th in h && id !in h && h[th].kind.Thread? && Base(h, allgc, main)
    ensures Base(Created(h, id, k, w, th), [id] + allgc, main)
  {
    hide Refs, Created;
    CreatedRefs(h, id, k, w, th);
    assert WellTyped(h[th]);
    CreatedNew(h, id, k, w, th);
    var h2, l2 := Created(h, id, k, w, th), [id] + allgc;
    assert forall x :: x in l2 <==> x == id || x in allgc;
    forall i, j | 0 <= i < j < |l2| ensures l2[i] != l2[j] {
      assert l2[j] == allgc[j - 1] && allgc[j - 1] in allgc;
      if i > 0 { assert l2[i] == allgc[i - 1]; }
    }
    forall x | x in h2 ensures WellTyped(h2[x]) { if x in h { assert WellTyped(h[x]); } }
  }

  lemma CreatedNew(h: Heap, id: nat, k: Kind, w: Color, th: nat)
    requires (w.White0? || w.White1?) && th in h && id !in h
    ensures var h2 := Created(h, id, k, w, th); id in h2 && h2[id] == NewObj(k, w) && WellTyped(h2[id])
  {
  }

  lemma CreatedLive(h: Heap, id: nat, k: Kind, w: Color, th: nat, roots: set<nat>)
    requires (w.White0? || w.White1?) && th in h && id !in h && h[th].kind.Thread? && LiveClosed(h, roots, w)
    ensures LiveClosed(Created(h, id, k, w, th), roots, w)
    ensures forall s :: LiveWithin(h, w, s) ==> LiveWithin(Created(h, id, k, w, th), w, s + {id})
    ensures forall l: seq<nat> :: AllWhite(h, l, w) ==> AllWhite(Created(h, id, k, w, th), l, w)
  {
    hide Refs, Created;
    CreatedRefs(h, id, k, w, th);
    CreatedNew(h, id, k, w, th);
  }

  lemma CreatedTri(h: Heap, id: nat, k: Kind, w: Color, th: nat, allgc: seq<nat>, main: nat, gray: seq<nat>, rest: seq<nat>)
    requires (w.White0? || w.White1?) && th in h && id !in h && h[th].kind.Thread?
    requires Tri(h, allgc, main, w, gray, rest, {}, -1)
    ensures Tri(Created(h, id, k, w, th), [id] + allgc, main, w, gray, rest, {}, -1)
  {
    hide Refs, Created, Base;
    CreatedRefs(h, id, k, w, th);
    CreatedNew(h, id, k, w, th);
    CreatedBase(h, id, k, w, th, allgc, main);
    var h2 := Created(h, id, k, w, th);
    ThreadNotBlack(h, allgc, main, th);
    forall x | x in h2 && h2[x].color.Black? ensures CleanBut(h2, h2[x], -1) {
      assert CleanBut(h, h[x], -1);
      forall r | r in Refs(h2[x]) ensures Seen(h2, r) { assert Seen(h, r); }
    }
    assert forall x :: x in allgc ==> x in [id] + allgc;
  }

  lemma ThreadNotBlack(h: Heap, allgc: seq<nat>, main: nat, th: nat)
    requires Base(h, allgc, main) && th in h && h[th].kind.Thread?
    ensures !h[th].color.Black?
  {
    assert WellTyped(h[th]);
  }

  lemma CreatedClosed(h: Heap, id: nat, k: Kind, w: Color, th: nat, roots: set<nat>, s: set<nat>)
    requires (w.White0? || w.White1?) && th in h && id !in h && h[th].kind.Thread?
    requires ClosedUnder(h, roots, s)
    ensures ClosedUnder(Created(h, id, k, w, th), roots, s + {id})
    ensures MarkedWithin(h, s) ==> MarkedWithin(Created(h, id, k, w, th), s + {id})
  {
    hide Refs, Created;
    CreatedRefs(h, id, k, w, th);
    CreatedNew(h, id, k, w, th);
  }

  // ---------------------------------------------------------------- shared objects

  /** The objects of `m` become shared; those of `f`, shared by another state, join. */
  ghost predicate Shares(h: Heap, h2: Heap, own: set<nat>) {
    && h.Keys <= h2.Keys
    && (forall x :: x in h && !h[x].shared ==> h2[x] == if x in own then h[x].(shared := true) else h[x])
    && (forall x :: x in h && h[x].shared ==> h2[x].shared && SameRefs(h[x], h2[x]))
    && (forall x :: x in h2 && x !in h ==> h2[x].shared)
    && (forall x :: x in h2 && h2[x].shared ==> !h2[x].kind.Thread? && Shaped(h2[x]))
    && SharedClosed(h2)
  }

  lemma SharesBase(h: Heap, h2: Heap, own: set<nat>, allgc: seq<nat>, main: nat)
    requires Base(h, allgc, main) && Shares(h, h2, own)
    ensures Base(h2, allgc, main)
  {
    hide Refs, Shaped;
    forall x | x in h2 ensures WellTyped(h2[x]) {
      if x in h { assert WellTyped(h[x]); }
      if !h2[x].shared { assert h2[x] == h[x]; }
    }
    assert WellTyped(h[main]);
  }

  lemma SharesLive(h: Heap, h2: Heap, own: set<nat>, roots: set<nat>, w: Color)
    requires (w.White0? || w.White1?) && LiveClosed(h, roots, w) && Shares(h, h2, own)
    ensures LiveClosed(h2, roots, w)
    ensures forall s :: LiveWithin(h, w, s) ==> LiveWithin(h2, w, s)
  {
    hide Refs, Shaped;
    forall o, r | o in h2 && !IsDead(h2[o], w) && r in Refs(h2[o]) ensures r in h2 && !IsDead(h2[r], w) {
      if !h2[o].shared { assert h2[o] == h[o]; assert r in h && !IsDead(h[r], w); }
    }
  }

  lemma SharesClosed(h: Heap, h2: Heap, own: set<nat>, roots: set<nat>, s: set<nat>)
    requires ClosedUnder(h, roots, s) && Shares(h, h2, own)
    ensures ClosedUnder(h2, roots, s)
    ensures MarkedWithin(h, s) ==> MarkedWithin(h2, s)
  {
    hide Refs, Shaped;
    forall o, r | o in h2 && (o in s || h2[o].shared) && r in Refs(h2[o]) ensures r in h2 && (r in s || h2[r].shared) {
      if !h2[o].shared && o in h { assert h2[o] == h[o]; assert r in h && (r in s || h[r].shared); }
    }
  }

  /** Objects of this state keep their colour when they become shared. */
  lemma SharesTri(h: Heap, h2: Heap, own: set<nat>, allgc: seq<nat>, main: nat, w: Color, gray: seq<nat>, rest: seq<nat>)
    requires (w.White0? || w.White1?) && Tri(h, allgc, main, w, gray, rest, {}, -1) && Shares(h, h2, own)
    requires forall x :: x in h && (x in allgc || x == main) ==> h2[x].color == h[x].color
    ensures Tri(h2, allgc, main, w, gray, rest, {}, -1)
  {
    hide Refs, Shaped, Base;
    SharesBase(h, h2, own, allgc, main);
    forall x | x in h2 && h2[x].color.Black? ensures CleanBut(h2, h2[x], -1) {
      forall r | r in Refs(h2[x]) ensures Seen(h2, r) {
        if !h2[x].shared { assert h2[x] == h[x]; assert CleanBut(h, h[x], -1); assert Seen(h, r); }
      }
    }
    forall o, r | o in h2 && r in Refs(h2[o]) ensures r in h2 {
      if !h2[o].shared { assert h2[o] == h[o]; }
    }
    forall o | o in gray + rest ensures h2[o].kind == h[o].kind {
      if h[o].shared { assert SameRefs(h[o], h2[o]); }
    }
  }
}
