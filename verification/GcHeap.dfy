/**
 * The object graph of the incremental collector (3rd/lua/lgc.h, 3rd/lua/lgc.c): colours, the dead
 * test, reachability, and what marking may do to the graph.
 */
module GcHeap {

  datatype Color = White0 | White1 | Gray | Black

  /** Strings are leaves; Lua and C closures, with closed upvalues only, behave alike. */
  datatype Kind = Leaf | Userdata | Table | Closure | Proto | Thread

  datatype Ref = None | To(id: nat)

  /** `refs` holds array and hash parts, upvalues, constants, stack slots or the user value. */
  datatype Obj = Obj(kind: Kind, color: Color, shared: bool, meta: Ref, refs: seq<nat>)

  type Heap = map<nat, Obj>

  predicate IsWhite(o: Obj) { o.color.White0? || o.color.White1? }

  /** A white object that the collector has to mark; shared ones are left alone. */
  predicate Unmarked(o: Obj) { IsWhite(o) && !o.shared }

  function OtherWhite(w: Color): (r: Color)
    requires w.White0? || w.White1?
  {
    if w.White0? then White1 else White0
  }

  predicate IsDead(o: Obj, w: Color)
    requires w.White0? || w.White1?
  {
    o.color == OtherWhite(w) && !o.shared
  }

  /** The `marked` byte: bits 0 and 1 are the two whites, bit 2 black, bit 4 shared. */
  function Bits(o: Obj): bv8 {
    (match o.color case White0 => 1 case White1 => 2 case Gray => 0 case Black => 4) | (if o.shared then 16 else 0)
  }

  function WhiteBits(w: Color): bv8 { if w.White0? then 1 else 2 }

  /** The bit tricks of lgc.h and lgc.c say of the byte what the tests above say of the object. */
  lemma BitTricks(o: Obj, w: Color)
    requires w.White0? || w.White1?
    ensures IsWhite(o) <==> Bits(o) & 3 != 0
    ensures o.color.Black? <==> Bits(o) & 4 != 0
    ensures o.color.Gray? <==> Bits(o) & 7 == 0
    ensures o.shared <==> Bits(o) & 16 != 0
    ensures WhiteBits(OtherWhite(w)) == WhiteBits(w) ^ 3
    ensures IsDead(o, w) <==> (Bits(o) ^ 3) & ((WhiteBits(w) ^ 3) | 16) == 0
    ensures Bits(o.(color := w)) == (Bits(o) & 0xF8) | (Bits(o) & 16) | WhiteBits(w)
    ensures Bits(o.(color := Gray)) == if IsWhite(o) then Bits(o) & 0xFC else if o.color.Black? then Bits(o) & 0xFB else Bits(o)
    ensures o.color.Gray? ==> Bits(o.(color := Black)) == Bits(o) | 4
  {
  }

  function Refs(o: Obj): seq<nat> { (if o.meta.To? then [o.meta.id] else []) + o.refs }

  // ---------------------------------------------------------------- reachability

  /** Reachable from the roots in at most n steps. */
  ghost predicate Within(h: Heap, roots: set<nat>, x: nat, n: nat)
    decreases n
  {
    x in roots || (n > 0 && exists p :: p in h && x in Refs(h[p]) && Within(h, roots, p, n - 1))
  }

  ghost predicate Reachable(h: Heap, roots: set<nat>, x: nat) { exists n: nat :: Within(h, roots, x, n) }

  /** `s`, as far as it is not shared, contains the roots and all that its members refer to. */
  ghost predicate ClosedUnder(h: Heap, roots: set<nat>, s: set<nat>) {
    && (forall r :: r in roots ==> r in h && (r in s || h[r].shared))
    && (forall o, r :: o in h && (o in s || h[o].shared) && r in Refs(h[o]) ==> r in h && (r in s || h[r].shared))
  }

  lemma {:induction false} WithinClosed(h: Heap, roots: set<nat>, s: set<nat>, x: nat, n: nat)
    requires ClosedUnder(h, roots, s) && Within(h, roots, x, n)
    ensures x in h && (x in s || h[x].shared)
    decreases n
  {
    if x !in roots {
      var p :| p in h && x in Refs(h[p]) && Within(h, roots, p, n - 1);
      WithinClosed(h, roots, s, p, n - 1);
    }
  }

  /** A set closed under references contains everything reachable that is not shared. */
  lemma ReachClosed(h: Heap, roots: set<nat>, s: set<nat>, x: nat)
    requires ClosedUnder(h, roots, s) && Reachable(h, roots, x)
    ensures x in h && (x in s || h[x].shared)
  {
    var n: nat :| Within(h, roots, x, n);
    WithinClosed(h, roots, s, x, n);
  }

  ghost function ReachSet(h: Heap, roots: set<nat>): set<nat> { set x | x in h && Reachable(h, roots, x) }

  /** One more step from a reachable object. */
  lemma ReachStep(h: Heap, roots: set<nat>, p: nat, x: nat)
    requires Reachable(h, roots, p) && p in h && x in Refs(h[p])
    ensures Reachable(h, roots, x)
  {
    var n: nat :| Within(h, roots, p, n);
    assert Within(h, roots, x, n + 1);
  }

  /** The reachable objects are a closed set, when no reference dangles. */
  lemma ReachSetClosed(h: Heap, roots: set<nat>)
    requires forall r :: r in roots ==> r in h
    requires forall o, r :: o in h && (h[o].shared || Reachable(h, roots, o)) && r in Refs(h[o]) ==> r in h
    requires forall o, r :: o in h && h[o].shared && r in Refs(h[o]) ==> r in h && h[r].shared
    ensures ClosedUnder(h, roots, ReachSet(h, roots))
  {
    forall r | r in roots ensures r in ReachSet(h, roots) { assert Within(h, roots, r, 0); }
    forall o, r | o in h && o in ReachSet(h, roots) && r in Refs(h[o]) ensures r in h && r in ReachSet(h, roots) {
      ReachStep(h, roots, o, r);
    }
  }

  /** Where every reachable object is kept as it was, reachability is kept. */
  ghost predicate SameGraph(h: Heap, h2: Heap, roots: set<nat>) {
    forall x :: x in h && Reachable(h, roots, x) ==> x in h2 && SameRefs(h[x], h2[x])
  }

  predicate SameRefs(a: Obj, b: Obj) { a.kind == b.kind && a.meta == b.meta && a.refs == b.refs }

  lemma {:induction false} WithinKept(h: Heap, h2: Heap, roots: set<nat>, x: nat, n: nat)
    requires SameGraph(h, h2, roots) && Within(h, roots, x, n)
    ensures Within(h2, roots, x, n)
    decreases n
  {
    if x !in roots {
      var p :| p in h && x in Refs(h[p]) && Within(h, roots, p, n - 1);
      WithinKept(h, h2, roots, p, n - 1);
      assert Reachable(h, roots, p);
      assert SameRefs(h[p], h2[p]);
    }
  }

  /** A step that only removes or recolours objects makes nothing reachable. */
  ghost predicate Shrinks(h: Heap, h2: Heap) {
    forall x :: x in h2 ==> x in h && SameRefs(h[x], h2[x])
  }

  lemma {:induction false} WithinShrinks(h: Heap, h2: Heap, roots: set<nat>, x: nat, n: nat)
    requires Shrinks(h, h2) && Within(h2, roots, x, n)
    ensures Within(h, roots, x, n)
    decreases n
  {
    if x !in roots {
      var p :| p in h2 && x in Refs(h2[p]) && Within(h2, roots, p, n - 1);
      WithinShrinks(h, h2, roots, p, n - 1);
      assert SameRefs(h[p], h2[p]);
    }
  }

  /** A collector step leaves the mutator's view of the heap exactly as it was. */
  lemma ReachKept(h: Heap, h2: Heap, roots: set<nat>)
    requires SameGraph(h, h2, roots) && Shrinks(h, h2)
    ensures forall x :: Reachable(h, roots, x) <==> Reachable(h2, roots, x)
  {
    forall x ensures Reachable(h, roots, x) <==> Reachable(h2, roots, x) {
      if Reachable(h, roots, x) {
        var n: nat :| Within(h, roots, x, n);
        WithinKept(h, h2, roots, x, n);
      }
      if Reachable(h2, roots, x) {
        var n: nat :| Within(h2, roots, x, n);
        WithinShrinks(h, h2, roots, x, n);
      }
    }
  }

  // ---------------------------------------------------------------- marking

  /** Strings refer to nothing and a userdata has at most one user value. */
  predicate Shaped(o: Obj) { (o.kind.Leaf? ==> Refs(o) == []) && (o.kind.Userdata? ==> |o.refs| <= 1) }

  /** Following references out of `s` never leaves `s`, but for shared objects. */
  ghost predicate Ready(h: Heap, s: set<nat>) {
    && (forall o :: o in h ==> Shaped(h[o]))
    && (forall o, r :: o in h && (o in s || h[o].shared) && r in Refs(h[o]) ==> r in h && (r in s || h[r].shared))
  }

  lemma ReadyRecolour(h: Heap, o: nat, c: Color, s: set<nat>)
    requires o in h && Ready(h, s)
    ensures Ready(h[o := h[o].(color := c)], s)
  {
    hide Refs;
    var h2 := h[o := h[o].(color := c)];
    assert Refs(h2[o]) == Refs(h[o]) by { RefsKept(h[o], h2[o]); }
    assert Shaped(h[o]);
  }

  lemma RefsKept(a: Obj, b: Obj)
    requires SameRefs(a, b)
    ensures Refs(a) == Refs(b)
    ensures Shaped(a) <==> Shaped(b)
  {
  }

  lemma ReadyMarks(h: Heap, g: seq<nat>, h2: Heap, g2: seq<nat>, s: set<nat>)
    requires Marks(h, g, h2, g2, s) && Ready(h, s)
    ensures Ready(h2, s)
  {
    hide Refs, Shaped;
    assert forall o :: o in h ==> Recoloured(h[o], h2, o, s);
    forall o | o in h2 ensures Shaped(h2[o]) { RefsKept(h[o], h2[o]); }
    forall o, r | o in h2 && (o in s || h2[o].shared) && r in Refs(h2[o]) ensures r in h2 && (r in s || h2[r].shared) {
      RefsKept(h[o], h2[o]);
    }
  }

  /** Reference `r` needs no further marking. */
  predicate Seen(h: Heap, r: nat) { r in h && !Unmarked(h[r]) }

  /** All that `o` refers to is marked or shared. */
  predicate Clean(h: Heap, o: Obj) { forall r :: r in Refs(o) ==> Seen(h, r) }

  /** Nothing refers outside the heap. */
  predicate NoDangling(h: Heap) { forall o, r :: o in h && r in Refs(h[o]) ==> r in h }

  predicate Distinct(s: seq<nat>) { forall i, j :: 0 <= i < j < |s| ==> s[i] != s[j] }

  /** Kinds that go through a gray list; the others turn black at once. */
  predicate Traversed(k: Kind) { !k.Leaf? && !k.Userdata? }

  /**
   * What marking does: it turns some unmarked objects gray, putting exactly those in front of the
   * gray list, and others black, whose references are all marked; it changes nothing else and
   * stays within every closed set `s` that it starts in.
   */
  ghost predicate Marks(h: Heap, g: seq<nat>, h2: Heap, g2: seq<nat>, s: set<nat>) {
    && h2.Keys == h.Keys
    && (forall x :: x in h ==> Recoloured(h[x], h2, x, s))
    && |g2| >= |g| && g2[|g2| - |g|..] == g
    && Fresh(h, h2, g2[..|g2| - |g|])
  }

  ghost predicate Recoloured(o: Obj, h2: Heap, x: nat, s: set<nat>)
    requires x in h2
  {
    && SameRefs(o, h2[x]) && o.shared == h2[x].shared
    && (o.color != h2[x].color ==> Turns(o, h2, x) && x in s)
  }

  ghost predicate Turns(o: Obj, h2: Heap, x: nat)
    requires x in h2
  {
    && Unmarked(o)
    && (Traversed(o.kind) ==> h2[x].color.Gray?)
    && (!Traversed(o.kind) ==> h2[x].color.Black? && Clean(h2, h2[x]))
  }

  /** `n` lists, once each, the objects that turned gray. */
  ghost predicate Fresh(h: Heap, h2: Heap, n: seq<nat>)
    requires h.Keys == h2.Keys
  {
    && Distinct(n)
    && (forall x :: x in n <==> x in h && Unmarked(h[x]) && h2[x].color.Gray?)
  }

  lemma MarksNothing(h: Heap, g: seq<nat>, s: set<nat>)
    ensures Marks(h, g, h, g, s)
  {
    assert g[|g| - |g|..] == g;
  }

  lemma SeenStays(h: Heap, g: seq<nat>, h2: Heap, g2: seq<nat>, s: set<nat>, r: nat)
    requires Marks(h, g, h2, g2, s) && Seen(h, r)
    ensures Seen(h2, r)
  {
  }

  lemma CleanStays(h: Heap, g: seq<nat>, h2: Heap, g2: seq<nat>, s: set<nat>, o: Obj)
    requires Marks(h, g, h2, g2, s) && Clean(h, o)
    ensures Clean(h2, o)
  {
    forall r | r in Refs(o) ensures Seen(h2, r) { SeenStays(h, g, h2, g2, s, r); }
  }

  lemma FreshJoin(h: Heap, h2: Heap, h3: Heap, n2: seq<nat>, n3: seq<nat>)
    requires h.Keys == h2.Keys == h3.Keys
    requires Fresh(h, h2, n2) && Fresh(h2, h3, n3)
    requires forall x :: x in h && h[x].color != h2[x].color ==> Unmarked(h[x]) && !IsWhite(h2[x])
    requires forall x :: x in h && h2[x].color != h3[x].color ==> Unmarked(h2[x]) && !IsWhite(h3[x])
    requires forall x :: x in h ==> h[x].shared == h2[x].shared == h3[x].shared
    ensures Fresh(h, h3, n3 + n2)
  {
    var n := n3 + n2;
    assert forall x :: x in n <==> x in n3 || x in n2;
    forall i, j | 0 <= i < j < |n| ensures n[i] != n[j] {
      if j >= |n3| && i < |n3| {
        assert n[i] == n3[i] && n[i] in n3 && n[j] == n2[j - |n3|] && n[j] in n2;
      }
    }
  }

  /** Two rounds of linking in front of a list. */
  lemma Prefixes(g: seq<nat>, g2: seq<nat>, g3: seq<nat>)
    requires |g| <= |g2| <= |g3| && g2[|g2| - |g|..] == g && g3[|g3| - |g2|..] == g2
    ensures g3[|g3| - |g|..] == g
    ensures g3[..|g3| - |g|] == g3[..|g3| - |g2|] + g2[..|g2| - |g|]
  {
    assert g3 == g3[..|g3| - |g2|] + g2;
    assert g2 == g2[..|g2| - |g|] + g;
  }

  lemma MarksTrans(h: Heap, g: seq<nat>, h2: Heap, g2: seq<nat>, h3: Heap, g3: seq<nat>, s: set<nat>)
    requires Marks(h, g, h2, g2, s) && Marks(h2, g2, h3, g3, s)
    ensures Marks(h, g, h3, g3, s)
  {
    hide Clean, Fresh, Refs;
    var n2, n3 := g2[..|g2| - |g|], g3[..|g3| - |g2|];
    Prefixes(g, g2, g3);
    forall x | x in h ensures Recoloured(h[x], h3, x, s) {
      if h[x].color != h2[x].color && h2[x].color.Black? { CleanStays(h2, g2, h3, g3, s, h2[x]); SameClean(h3, h2[x], h3[x]); }
    }
    FreshJoin(h, h2, h3, n2, n3);
  }

  lemma SameClean(h: Heap, a: Obj, b: Obj)
    requires SameRefs(a, b)
    ensures Clean(h, a) <==> Clean(h, b)
  {
  }

  /** Marking a traversed object puts it in front of the gray list. */
  lemma MarksLinked(h: Heap, g: seq<nat>, o: nat, s: set<nat>)
    requires o in h && Unmarked(h[o]) && Traversed(h[o].kind) && o in s
    ensures Marks(h, g, h[o := h[o].(color := Gray)], [o] + g, s)
  {
    assert ([o] + g)[..1] == [o] && ([o] + g)[1..] == g;
  }

  /** Marking a string blackens it. */
  lemma MarksLeaf(h: Heap, g: seq<nat>, o: nat, s: set<nat>)
    requires o in h && Unmarked(h[o]) && h[o].kind.Leaf? && Refs(h[o]) == [] && o in s
    ensures Marks(h, g, h[o := h[o].(color := Black)], g, s)
  {
    assert g[|g| - |g|..] == g && g[..|g| - |g|] == [];
  }

  /**
   * Marking a userdata: `h1` is `h` with the userdata gray, its metatable is marked up to `h2`,
   * it turns black, and its user value is marked up to `h4`.
   */
  lemma MarksUserdata(h: Heap, g: seq<nat>, o: nat, h2: Heap, g2: seq<nat>, h4: Heap, g4: seq<nat>, s: set<nat>)
    requires o in h && Unmarked(h[o]) && h[o].kind.Userdata? && o in s
    requires Marks(h[o := h[o].(color := Gray)], g, h2, g2, s)
    requires Marks(h2[o := h2[o].(color := Black)], g2, h4, g4, s)
    requires Clean(h4, h4[o])
    ensures Marks(h, g, h4, g4, s)
  {
    hide Clean, Fresh, Refs;
    var h1, h3 := h[o := h[o].(color := Gray)], h2[o := h2[o].(color := Black)];
    var n2, n4 := g2[..|g2| - |g|], g4[..|g4| - |g2|];
    assert h2[o].color == Gray && h4[o].color == Black;
    Prefixes(g, g2, g4);
    forall x | x in h ensures Recoloured(h[x], h4, x, s) {
      if x != o { MarkedBelow(h, g, o, x, h2, g2, h4, g4, s); }
    }
    FreshUserdata(h, h1, h2, h3, h4, o, n2, n4);
  }

  lemma MarkedBelow(h: Heap, g: seq<nat>, o: nat, x: nat, h2: Heap, g2: seq<nat>, h4: Heap, g4: seq<nat>, s: set<nat>)
    requires o in h && x in h && x != o
    requires Marks(h[o := h[o].(color := Gray)], g, h2, g2, s)
    requires Marks(h2[o := h2[o].(color := Black)], g2, h4, g4, s)
    ensures Recoloured(h[x], h4, x, s)
  {
    hide Clean, Fresh, Refs;
    var h1, h3 := h[o := h[o].(color := Gray)], h2[o := h2[o].(color := Black)];
    assert Recoloured(h1[x], h2, x, s) && Recoloured(h3[x], h4, x, s);
    if h[x].color != h2[x].color && h2[x].color.Black? {
      BlackenClean(h2, o, h2[x]);
      CleanStays(h3, g2, h4, g4, s, h2[x]);
      SameClean(h4, h2[x], h4[x]);
    }
  }

  lemma BlackenClean(h: Heap, o: nat, b: Obj)
    requires o in h && Clean(h, b)
    ensures Clean(h[o := h[o].(color := Black)], b)
  {
    var h3 := h[o := h[o].(color := Black)];
    forall r | r in Refs(b) ensures Seen(h3, r) { assert Seen(h, r); }
  }

  lemma FreshUserdata(h: Heap, h1: Heap, h2: Heap, h3: Heap, h4: Heap, o: nat, n2: seq<nat>, n4: seq<nat>)
    requires o in h && Unmarked(h[o]) && h1 == h[o := h[o].(color := Gray)]
    requires h1.Keys == h2.Keys == h3.Keys == h4.Keys && h3 == h2[o := h2[o].(color := Black)]
    requires Fresh(h1, h2, n2) && Fresh(h3, h4, n4)
    requires forall x :: x in h ==> h1[x].shared == h2[x].shared && h3[x].shared == h4[x].shared
    requires forall x :: x in h && h1[x].color != h2[x].color ==> Unmarked(h1[x]) && !IsWhite(h2[x])
    requires forall x :: x in h && h3[x].color != h4[x].color ==> Unmarked(h3[x]) && !IsWhite(h4[x])
    ensures Fresh(h, h4, n4 + n2)
  {
    var n := n4 + n2;
    assert forall x :: x in n <==> x in n4 || x in n2;
    forall i, j | 0 <= i < j < |n| ensures n[i] != n[j] {
      if j >= |n4| && i < |n4| {
        assert n[i] == n4[i] && n[i] in n4 && n[j] == n2[j - |n4|] && n[j] in n2;
      }
    }
  }

  lemma HasElement(n: seq<nat>)
    ensures n != [] ==> exists x :: x in n
  {
    if n != [] { assert n[0] in n; }
  }

  /** The unmarked objects: marking makes them fewer. */
  function Whites(h: Heap): set<nat> { set x | x in h && Unmarked(h[x]) }

  lemma MarksFewer(h: Heap, g: seq<nat>, h2: Heap, g2: seq<nat>, s: set<nat>)
    requires Marks(h, g, h2, g2, s)
    ensures Whites(h2) <= Whites(h)
    ensures Whites(h2) == Whites(h) ==> h2 == h && g2 == g
  {
    if Whites(h2) == Whites(h) {
      forall x | x in h ensures h[x] == h2[x] {
        assert x in Whites(h) <==> x in Whites(h2);
        assert SameRefs(h[x], h2[x]);
      }
      var n := g2[..|g2| - |g|];
      HasElement(n);
      assert g2 == n + g;
    }
  }
}
