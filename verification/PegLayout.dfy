/**
 * Where the rules end up in generated code, and why chains of jumps end: every address has
 * a potential that jumps, and calls that may become jumps, strictly decrease.
 */
module PegLayout {
  import opened PegSyntax
  import opened PegAnalysis
  import opened PegMachine
  import opened PegCodegen
  import opened PegSimulation
  import opened PegCorrect

  /** Bound on the potential of the code of rules of rank below `k`. */
  function Level(w: nat, k: nat): nat {
    if k == 0 then 0 else Level(w, k - 1) + w
  }

  lemma {:induction false} LevelMonotone(w: nat, j: nat, k: nat)
    requires j <= k
    ensures Level(w, j) <= Level(w, k)
    decreases k
  {
    if j < k { LevelMonotone(w, j, k - 1); }
  }

  function At(pots: seq<nat>, x: nat, j: nat): nat
    requires j <= |pots|
  {
    if j < |pots| then pots[j] else x
  }

  /** The label of an instruction, if it has one, is an address of the program. */
  predicate LabelOk(code: seq<Instr>, a: nat)
    requires a < |code|
  {
    HasLabel(code[a]) ==> 0 <= a + code[a].off < |code|
  }

  /** Address p + j obeys the potentials `pots` of p.. when the address after them has potential x. */
  predicate LocalOk(env: Env, w: nat, code: seq<Instr>, p: nat, pots: seq<nat>, x: nat, j: nat)
    requires p + |pots| <= |code| && j < |pots|
  {
    && LabelOk(code, p + j)
    && match code[p + j]
       case IJmp(off) => 0 <= j + off <= |pots| && At(pots, x, j + off) < pots[j]
       case IOpenCall(r) => r < |env.rank| && Level(w, env.rank[r] + 1) < pots[j]
       case _ => true
  }

  predicate SegOk(env: Env, w: nat, code: seq<Instr>, p: nat, pots: seq<nat>, x: nat) {
    && p + |pots| <= |code|
    && forall j :: 0 <= j < |pots| ==> LocalOk(env, w, code, p, pots, x, j)
  }

  lemma Embed(env: Env, w: nat, code: seq<Instr>, p: nat, pots: seq<nat>, x: nat, o: nat, part: seq<nat>, y: nat)
    requires p + |pots| <= |code| && o + |part| <= |pots| && pots[o..o + |part|] == part
    requires SegOk(env, w, code, p + o, part, y) && At(pots, x, o + |part|) == y
    ensures forall j :: o <= j < o + |part| ==> LocalOk(env, w, code, p, pots, x, j)
  {
    forall j | o <= j < o + |part| ensures LocalOk(env, w, code, p, pots, x, j) {
      assert pots[j] == part[j - o];
      assert LocalOk(env, w, code, p + o, part, y, j - o);
      assert p + j == p + o + (j - o);
      match code[p + j]
      case IJmp(off) =>
        if j - o + off < |part| { assert pots[j + off] == part[j - o + off]; }
      case _ =>
    }
  }

  /** Positions of rules and potentials of the addresses of a piece of code. */
  datatype Layout = Layout(link: map<nat, int>, pots: seq<nat>)

  /** The code of rule `r` is at `a`, an address of bounded potential within p.. */
  ghost predicate RuleAt(env: Env, w: nat, code: seq<Instr>, p: nat, pots: seq<nat>, r: nat, a: int)
    requires env.Valid()
  {
    && r < |env.tab.rules| && CodeAt(code, a, RuleCode(env, r))
    && p <= a < p + |pots| && pots[a - p] <= Level(w, env.rank[r] + 1)
  }

  ghost predicate LinkOk(env: Env, w: nat, code: seq<Instr>, p: nat, l: Layout)
    requires env.Valid()
  {
    forall r {:trigger l.link[r]} :: r in l.link ==> RuleAt(env, w, code, p, l.pots, r, l.link[r])
  }

  /** Open calls in p..q are linked, or belong to the enclosing grammar lo..hi. */
  predicate Covered(code: seq<Instr>, p: nat, q: nat, link: map<nat, int>, lo: nat, hi: nat) {
    && q <= |code|
    && forall i {:trigger code[i]} :: p <= i < q && code[i].IOpenCall? ==>
      code[i].rule in link || lo <= code[i].rule < hi
  }

  ghost predicate LayoutOk(env: Env, w: nat, code: seq<Instr>, p: nat, l: Layout, x: nat, lo: nat, hi: nat)
    requires env.Valid()
  {
    && SegOk(env, w, code, p, l.pots, x)
    && LinkOk(env, w, code, p, l)
    && Covered(code, p, p + |l.pots|, l.link, lo, hi)
  }

  /** The layout of a part carries over to a whole that contains it at offset `o`. */
  lemma LinkEmbed(env: Env, w: nat, code: seq<Instr>, p: nat, o: nat, pots: seq<nat>, link: map<nat, int>, whole: seq<nat>)
    requires env.Valid() && LinkOk(env, w, code, p + o, Layout(link, pots))
    requires o + |pots| <= |whole| && whole[o..o + |pots|] == pots
    ensures LinkOk(env, w, code, p, Layout(link, whole))
  {
    forall r {:trigger link[r]} | r in link ensures RuleAt(env, w, code, p, whole, r, link[r]) {
      assert RuleAt(env, w, code, p + o, pots, r, Layout(link, pots).link[r]);
      assert whole[link[r] - p] == pots[link[r] - p - o];
    }
  }

  /** Potential of the entry of a pattern's code, from the potential of what follows it. */
  function EntryBound(env: Env, w: nat, t: Tree, x: nat, len: nat): nat {
    Max(Level(w, env.Left(t)), if NullableIn(env.nul, t) then x else 0) + len
  }

  lemma SegJoin(env: Env, w: nat, code: seq<Instr>, p: nat, pots: seq<nat>, x: nat, m: nat)
    requires p + |pots| <= |code| && m <= |pots|
    requires forall j :: 0 <= j < m ==> LocalOk(env, w, code, p, pots, x, j)
    requires forall j :: m <= j < |pots| ==> LocalOk(env, w, code, p, pots, x, j)
    ensures SegOk(env, w, code, p, pots, x)
  {
  }

  lemma JoinPots(env: Env, w: nat, code: seq<Instr>, p: nat, p1: seq<nat>, p2: seq<nat>, x: nat)
    requires SegOk(env, w, code, p, p1, At(p2, x, 0)) && SegOk(env, w, code, p + |p1|, p2, x)
    ensures SegOk(env, w, code, p, p1 + p2, x)
  {
    hide LocalOk;
    var ps, n1, n2 := p1 + p2, |p1|, |p2|;
    assert ps[0..n1] == p1 && ps[n1..n1 + n2] == p2;
    assert At(ps, x, n1) == At(p2, x, 0);
    Embed(env, w, code, p, ps, x, 0, p1, At(p2, x, 0));
    Embed(env, w, code, p, ps, x, n1, p2, x);
    SegJoin(env, w, code, p, ps, x, n1);
  }

  lemma JoinLinks(env: Env, w: nat, code: seq<Instr>, p: nat, l1: Layout, l2: Layout)
    requires env.Valid() && LinkOk(env, w, code, p, l1) && LinkOk(env, w, code, p + |l1.pots|, l2)
    ensures LinkOk(env, w, code, p, Layout(l1.link + l2.link, l1.pots + l2.pots))
  {
    hide RuleAt, Env.Valid;
    var ps := l1.pots + l2.pots;
    assert ps[0..|l1.pots|] == l1.pots && ps[|l1.pots|..|l1.pots| + |l2.pots|] == l2.pots;
    LinkEmbed(env, w, code, p, 0, l1.pots, l1.link, ps);
    LinkEmbed(env, w, code, p, |l1.pots|, l2.pots, l2.link, ps);
    forall r {:trigger (l1.link + l2.link)[r]} | r in l1.link + l2.link
      ensures RuleAt(env, w, code, p, ps, r, (l1.link + l2.link)[r])
    {
      assert r in l2.link ==> RuleAt(env, w, code, p, ps, r, Layout(l2.link, ps).link[r]);
      assert r in l1.link ==> RuleAt(env, w, code, p, ps, r, Layout(l1.link, ps).link[r]);
    }
  }

  /** Two parts one after the other. */
  lemma Join(env: Env, w: nat, code: seq<Instr>, p: nat, l1: Layout, l2: Layout, x: nat, lo: nat, hi: nat) returns (l: Layout)
    requires env.Valid()
    requires LayoutOk(env, w, code, p, l1, At(l2.pots, x, 0), lo, hi)
    requires LayoutOk(env, w, code, p + |l1.pots|, l2, x, lo, hi)
    ensures LayoutOk(env, w, code, p, l, x, lo, hi)
    ensures l.pots == l1.pots + l2.pots
    ensures l.link == l1.link + l2.link
  {
    hide LocalOk, RuleAt, Env.Valid;
    l := Layout(l1.link + l2.link, l1.pots + l2.pots);
    JoinPots(env, w, code, p, l1.pots, l2.pots, x);
    JoinLinks(env, w, code, p, l1, l2);
  }

  /** A single instruction that is neither a jump nor an open call, with potential `v`. */
  lemma Single(env: Env, w: nat, code: seq<Instr>, p: nat, v: nat, x: nat, lo: nat, hi: nat) returns (l: Layout)
    requires env.Valid() && p < |code| && !code[p].IJmp? && !code[p].IOpenCall? && LabelOk(code, p)
    ensures l == Layout(map[], [v]) && LayoutOk(env, w, code, p, l, x, lo, hi)
  {
    l := Layout(map[], [v]);
  }

  /** An instruction in front that jumps at most to offset `off` of the code behind it. */
  lemma Prefix(env: Env, w: nat, code: seq<Instr>, p: nat, rest: Layout, off: nat, x: nat, lo: nat, hi: nat) returns (l: Layout)
    requires env.Valid() && LayoutOk(env, w, code, p + 1, rest, x, lo, hi)
    requires p < |code| && !code[p].IOpenCall? && (code[p].IJmp? ==> code[p].off == off + 1) && LabelOk(code, p)
    requires off <= |rest.pots|
    ensures LayoutOk(env, w, code, p, l, x, lo, hi)
    ensures l.pots == [At(rest.pots, x, off) + 1] + rest.pots && l.link == rest.link
  {
    hide Level, CodeAt, RuleCode, Env.Valid;
    var ps := [At(rest.pots, x, off) + 1] + rest.pots;
    l := Layout(rest.link, ps);
    assert ps[1..1 + |rest.pots|] == rest.pots;
    assert At(ps, x, 1 + |rest.pots|) == x;
    Embed(env, w, code, p, ps, x, 1, rest.pots, x);
    LinkEmbed(env, w, code, p, 1, rest.pots, rest.link, ps);
    assert LocalOk(env, w, code, p, ps, x, 0);
    SegJoin(env, w, code, p, ps, x, 1);
  }

  /** No code: nothing to lay out. */
  function Nothing(): Layout { Layout(map[], []) }

  /** What `LayOut` promises of the code of `t` at p. */
  ghost predicate Laid(env: Env, w: nat, code: seq<Instr>, t: Tree, p: nat, l: Layout, x: nat, lo: nat, hi: nat, len: nat)
    requires env.Valid()
  {
    && LayoutOk(env, w, code, p, l, x, lo, hi)
    && |l.pots| == len
    && At(l.pots, x, 0) <= EntryBound(env, w, t, x, len)
  }

  ghost predicate CanLay(env: Env, w: nat, code: seq<Instr>, t: Tree, opt: bool, tt: Test, fl: Charset, p: nat, lo: nat, hi: nat) {
    && env.Valid() && env.tab.GrammarsOk(t) && CallsIn(t, lo, hi, env.tab.live) && hi <= |env.tab.rules|
    && CodeAt(code, p, Gen(env, t, opt, tt, fl))
    && |Gen(env, t, opt, tt, fl)| <= w
    && p + |Gen(env, t, opt, tt, fl)| < |code|
  }

  lemma {:induction false} LayOut(env: Env, w: nat, code: seq<Instr>, t: Tree, opt: bool, tt: Test, fl: Charset,
                                  p: nat, x: nat, lo: nat, hi: nat) returns (l: Layout)
    requires CanLay(env, w, code, t, opt, tt, fl, p, lo, hi)
    ensures Laid(env, w, code, t, p, l, x, lo, hi, |Gen(env, t, opt, tt, fl)|)
    ensures l.link == Positions(env, t, opt, tt, fl, p)
    decreases Nest(env, t), t, 2
  {
    match t
    case TSeq(a, b) => l := LayOutSeq(env, w, code, a, b, opt, tt, fl, p, x, lo, hi);
    case TChoice(a, b) => l := LayOutChoice(env, w, code, a, b, opt, tt, fl, p, x, lo, hi);
    case TRep(t1) => l := LayOutRep(env, w, code, t1, opt, tt, fl, p, x, lo, hi);
    case TNot(t1) => l := LayOutNot(env, w, code, t1, opt, tt, fl, p, x, lo, hi);
    case TAnd(t1) => l := LayOutAnd(env, w, code, t1, opt, tt, fl, p, x, lo, hi);
    case TBehind(t1, n) => l := LayOutBehind(env, w, code, t1, n, opt, tt, fl, p, x, lo, hi);
    case TGrammar(f, c) => l := LayOutGrammar(env, w, code, f, c, opt, tt, fl, p, x, lo, hi);
    case TCall(r) =>
      CallShape(env, code, r, opt, tt, fl, p);
      l := Layout(map[], [Level(w, env.rank[r] + 1) + 1]);
    case TTrue => l := Nothing();
    case _ => l := LayOutLeaf(env, w, code, t, opt, tt, fl, p, x, lo, hi);
  }

  lemma LayOutLeaf(env: Env, w: nat, code: seq<Instr>, t: Tree, opt: bool, tt: Test, fl: Charset,
                   p: nat, x: nat, lo: nat, hi: nat) returns (l: Layout)
    requires CanLay(env, w, code, t, opt, tt, fl, p, lo, hi)
    requires t.TChar? || t.TSet? || t.TAny? || t.TFalse?
    ensures Laid(env, w, code, t, p, l, x, lo, hi, |Gen(env, t, opt, tt, fl)|)
    ensures l.link == Positions(env, t, opt, tt, fl, p)
  {
    var i := Gen(env, t, opt, tt, fl)[0];
    assert Gen(env, t, opt, tt, fl) == [i];
    CodeAtOne(code, p, i);
    l := Single(env, w, code, p, 0, x, lo, hi);
  }

  lemma {:induction false} LayOutSeq(env: Env, w: nat, code: seq<Instr>, a: Tree, b: Tree, opt: bool, tt: Test, fl: Charset,
                                     p: nat, x: nat, lo: nat, hi: nat) returns (l: Layout)
    requires CanLay(env, w, code, TSeq(a, b), opt, tt, fl, p, lo, hi)
    ensures Laid(env, w, code, TSeq(a, b), p, l, x, lo, hi, |Gen(env, TSeq(a, b), opt, tt, fl)|)
    ensures l.link == Positions(env, TSeq(a, b), opt, tt, fl, p)
    decreases Nest(env, TSeq(a, b)), TSeq(a, b), 1
  {
    hide Gen, GetFirst, CheckAux, HeadFail, FixedLen, SeqFollow, SeqTest, CodeAt, LayoutOk, Env.Valid, Positions;
    SeqPos(env, a, b, opt, tt, fl, p);
    SeqShape(env, code, a, b, opt, tt, fl, p);
    var c1 := Gen(env, a, false, tt, SeqFollow(env, a, b, fl));
    var l2 := LayOut(env, w, code, b, opt, SeqTest(env, a, tt), fl, p + |c1|, x, lo, hi);
    var l1 := LayOut(env, w, code, a, false, tt, SeqFollow(env, a, b, fl), p, At(l2.pots, x, 0), lo, hi);
    l := Join(env, w, code, p, l1, l2, x, lo, hi);
    LevelMonotone(w, env.Left(a), env.Left(TSeq(a, b)));
    if NullableIn(env.nul, a) { LevelMonotone(w, env.Left(b), env.Left(TSeq(a, b))); }
  }

  lemma {:induction false} LayOutChoice(env: Env, w: nat, code: seq<Instr>, a: Tree, b: Tree, opt: bool, tt: Test, fl: Charset,
                                        p: nat, x: nat, lo: nat, hi: nat) returns (l: Layout)
    requires CanLay(env, w, code, TChoice(a, b), opt, tt, fl, p, lo, hi)
    ensures Laid(env, w, code, TChoice(a, b), p, l, x, lo, hi, |Gen(env, TChoice(a, b), opt, tt, fl)|)
    ensures l.link == Positions(env, TChoice(a, b), opt, tt, fl, p)
    decreases Nest(env, TChoice(a, b)), TChoice(a, b), 1
  {
    hide Gen, GetFirst, CheckAux, HeadFail, CodeAt, LayoutOk, Env.Valid;
    if ChoiceByTest(env, a, b, fl) {
      l := LayOutChoiceTest(env, w, code, a, b, opt, tt, fl, p, x, lo, hi);
    } else if opt && b.TTrue? {
      ReuseShape(env, code, a, tt, fl, p);
      var l1 := LayOut(env, w, code, a, true, NoTest, Full, p + 1, x, lo, hi);
      var l0 := Single(env, w, code, p, 0, At(l1.pots, x, 0), lo, hi);
      l := Join(env, w, code, p, l0, l1, x, lo, hi);
    } else {
      l := LayOutChoicePoint(env, w, code, a, b, opt, tt, fl, p, x, lo, hi);
    }
  }

  /** A test in front of a choice jumps to the second alternative. */
  lemma ChoiceEntry(env: Env, w: nat, a: Tree, b: Tree, x: nat, e: nat, n: nat, len: nat)
    requires e <= EntryBound(env, w, b, x, n) && n < len
    ensures e + 1 <= EntryBound(env, w, TChoice(a, b), x, len)
  {
    LevelMonotone(w, env.Left(b), env.Left(TChoice(a, b)));
  }

  lemma {:induction false} LayOutChoiceTest(env: Env, w: nat, code: seq<Instr>, a: Tree, b: Tree, opt: bool, tt: Test, fl: Charset,
                                            p: nat, x: nat, lo: nat, hi: nat) returns (l: Layout)
    requires CanLay(env, w, code, TChoice(a, b), opt, tt, fl, p, lo, hi) && ChoiceByTest(env, a, b, fl)
    ensures Laid(env, w, code, TChoice(a, b), p, l, x, lo, hi, |Gen(env, TChoice(a, b), opt, tt, fl)|)
    ensures l.link == Positions(env, TChoice(a, b), opt, tt, fl, p)
    decreases Nest(env, TChoice(a, b)), TChoice(a, b), 0
  {
    hide Gen, GetFirst, CheckAux, HeadFail, CodeAt, LayoutOk, Env.Valid, EntryBound, Positions;
    ChoiceTestPos(env, a, b, opt, tt, fl, p);
    ChoiceTestShape(env, code, a, b, opt, tt, fl, p);
    var len := |Gen(env, TChoice(a, b), opt, tt, fl)|;
    var tt1 := Dominated(CodeTest(GetFirst(env, a, Full).cs, 0));
    var c1 := Gen(env, a, false, tt1, fl);
    if b.TTrue? {
      var l1 := LayOut(env, w, code, a, false, tt1, fl, p + 1, x, lo, hi);
      l := Prefix(env, w, code, p, l1, |c1|, x, lo, hi);
      TruePos(env, opt, NoTest, fl, p + |c1| + 1);
      assert l.link == l1.link + map[];
      TrueEntry(env, w, x);
      ChoiceEntry(env, w, a, b, x, x, 0, len);
    } else {
      var l2 := LayOut(env, w, code, b, opt, NoTest, fl, p + 2 + |c1|, x, lo, hi);
      var lj := Prefix(env, w, code, p + 1 + |c1|, l2, |l2.pots|, x, lo, hi);
      var l1 := LayOut(env, w, code, a, false, tt1, fl, p + 1, At(lj.pots, x, 0), lo, hi);
      var l12 := Join(env, w, code, p + 1, l1, lj, x, lo, hi);
      assert At(l12.pots, x, |c1| + 1) == At(l2.pots, x, 0);
      assert p + |c1| + 2 == p + 2 + |c1|;
      l := Prefix(env, w, code, p, l12, |c1| + 1, x, lo, hi);
      ChoiceEntry(env, w, a, b, x, At(l2.pots, x, 0), |l2.pots|, len);
    }
  }

  lemma TrueEntry(env: Env, w: nat, x: nat)
    ensures x <= EntryBound(env, w, TTrue, x, 0)
  {
  }

  lemma {:induction false} LayOutChoicePoint(env: Env, w: nat, code: seq<Instr>, a: Tree, b: Tree, opt: bool, tt: Test, fl: Charset,
                                             p: nat, x: nat, lo: nat, hi: nat) returns (l: Layout)
    requires CanLay(env, w, code, TChoice(a, b), opt, tt, fl, p, lo, hi) && !ChoiceByTest(env, a, b, fl) && !(opt && b.TTrue?)
    ensures Laid(env, w, code, TChoice(a, b), p, l, x, lo, hi, |Gen(env, TChoice(a, b), opt, tt, fl)|)
    ensures l.link == Positions(env, TChoice(a, b), opt, tt, fl, p)
    decreases Nest(env, TChoice(a, b)), TChoice(a, b), 0
  {
    hide Gen, GetFirst, CheckAux, HeadFail, CodeAt, LayoutOk, Env.Valid, Positions;
    ChoicePointPos(env, a, b, opt, tt, fl, p);
    ChoicePointShape(env, code, a, b, opt, tt, fl, p);
    var f1 := GetFirst(env, a, Full);
    var c1 := Gen(env, a, b.TTrue?, TestOf(f1), Full);
    var p1 := if f1.e then p else p + 1;
    var l2 := LayOut(env, w, code, b, opt, NoTest, fl, p1 + 2 + |c1|, x, lo, hi);
    var l1 := LayOut(env, w, code, a, b.TTrue?, TestOf(f1), Full, p1 + 1, 0, lo, hi);
    var lc := Bracket(env, w, code, p1, l1, l2, x, lo, hi);
    if f1.e {
      l := lc;
    } else {
      assert At(lc.pots, x, 2 + |c1|) == At(l2.pots, x, 0);
      l := Prefix(env, w, code, p, lc, 2 + |c1|, x, lo, hi);
      ChoiceEntry(env, w, a, b, x, At(l2.pots, x, 0), |l2.pots|, |Gen(env, TChoice(a, b), opt, tt, fl)|);
    }
  }

  /** A part between two instructions that are no jumps, followed by more code. */
  lemma Bracket(env: Env, w: nat, code: seq<Instr>, p: nat, l1: Layout, l2: Layout, x: nat, lo: nat, hi: nat) returns (l: Layout)
    requires env.Valid() && LayoutOk(env, w, code, p + 1, l1, 0, lo, hi)
    requires LayoutOk(env, w, code, p + 2 + |l1.pots|, l2, x, lo, hi)
    requires p + 1 + |l1.pots| < |code| && !code[p].IJmp? && !code[p].IOpenCall? && LabelOk(code, p)
    requires !code[p + 1 + |l1.pots|].IJmp? && !code[p + 1 + |l1.pots|].IOpenCall? && LabelOk(code, p + 1 + |l1.pots|)
    ensures LayoutOk(env, w, code, p, l, x, lo, hi) && l.pots == [0] + l1.pots + [0] + l2.pots
    ensures l.link == l1.link + l2.link
  {
    hide LayoutOk, Env.Valid;
    var lb := Single(env, w, code, p + 1 + |l1.pots|, 0, At(l2.pots, x, 0), lo, hi);
    var la := Single(env, w, code, p, 0, At(l1.pots, 0, 0), lo, hi);
    var l0 := Join(env, w, code, p, la, l1, 0, lo, hi);
    var l3 := Join(env, w, code, p + 1 + |l1.pots|, lb, l2, x, lo, hi);
    l := Join(env, w, code, p, l0, l3, x, lo, hi);
    assert l.pots == [0] + l1.pots + [0] + l2.pots;
    assert l.link == map[] + l1.link + (map[] + l2.link);
  }

  lemma {:induction false} LayOutRep(env: Env, w: nat, code: seq<Instr>, t: Tree, opt: bool, tt: Test, fl: Charset,
                                     p: nat, x: nat, lo: nat, hi: nat) returns (l: Layout)
    requires CanLay(env, w, code, TRep(t), opt, tt, fl, p, lo, hi)
    ensures Laid(env, w, code, TRep(t), p, l, x, lo, hi, |Gen(env, TRep(t), opt, tt, fl)|)
    ensures l.link == Positions(env, TRep(t), opt, tt, fl, p)
    decreases Nest(env, TRep(t)), TRep(t), 1
  {
    hide Gen, GetFirst, CheckAux, HeadFail, CodeAt, LayoutOk, Env.Valid, Positions;
    RepPos(env, t, opt, tt, fl, p);
    RepShape(env, code, t, opt, tt, fl, p);
    var f := GetFirst(env, t, Full);
    if IsCharset(t) {
      l := Single(env, w, code, p, 0, x, lo, hi);
    } else if RepByTest(env, t, fl) {
      var tt1 := Dominated(CodeTest(f.cs, 0));
      var c := Gen(env, t, false, tt1, Full);
      var l1 := LayOut(env, w, code, t, false, tt1, Full, p + 1, x + 2, lo, hi);
      l := LoopBack(env, w, code, p, l1, x, lo, hi);
    } else {
      var c := Gen(env, t, false, NoTest, Full);
      var p1 := if f.e then p else p + 1;
      var l1 := LayOut(env, w, code, t, false, NoTest, Full, p1 + 1, 0, lo, hi);
      var lc := Bracket(env, w, code, p1, l1, Nothing(), x, lo, hi) by {
        assert LayoutOk(env, w, code, p1 + 2 + |l1.pots|, Nothing(), x, lo, hi) by {
          NothingOk(env, w, code, p1 + 2 + |l1.pots|, x, lo, hi);
        }
      }
      if f.e { l := lc; } else { l := Prefix(env, w, code, p, lc, 2 + |c|, x, lo, hi); }
    }
  }

  lemma NothingOk(env: Env, w: nat, code: seq<Instr>, p: nat, x: nat, lo: nat, hi: nat)
    requires env.Valid() && p <= |code|
    ensures LayoutOk(env, w, code, p, Nothing(), x, lo, hi)
  {
  }

  /** A loop `L1: test -> L2; ...; jmp L1; L2:`; a test that always fails is itself a jump. */
  lemma LoopBack(env: Env, w: nat, code: seq<Instr>, p: nat, l1: Layout, x: nat, lo: nat, hi: nat) returns (l: Layout)
    requires env.Valid() && LayoutOk(env, w, code, p + 1, l1, x + 2, lo, hi)
    requires p + 1 + |l1.pots| < |code| && !code[p].IOpenCall? && LabelOk(code, p)
    requires code[p].IJmp? ==> code[p].off == 2 + |l1.pots|
    requires code[p + 1 + |l1.pots|] == IJmp(-(1 + |l1.pots|))
    ensures LayoutOk(env, w, code, p, l, x, lo, hi) && l.pots == [x + 1] + l1.pots + [x + 2] && l.link == l1.link
  {
    hide Level, CodeAt, RuleCode, Env.Valid;
    var n := |l1.pots|;
    var ps := [x + 1] + l1.pots + [x + 2];
    l := Layout(l1.link, ps);
    assert ps[1..1 + n] == l1.pots;
    assert At(ps, x, 1 + n) == x + 2;
    Embed(env, w, code, p, ps, x, 1, l1.pots, x + 2);
    LinkEmbed(env, w, code, p, 1, l1.pots, l1.link, ps);
    assert LocalOk(env, w, code, p, ps, x, 0);
    assert LocalOk(env, w, code, p, ps, x, n + 1);
    assert forall j :: 0 <= j < |ps| ==> LocalOk(env, w, code, p, ps, x, j);
  }

  lemma {:induction false} LayOutNot(env: Env, w: nat, code: seq<Instr>, t: Tree, opt: bool, tt: Test, fl: Charset,
                                     p: nat, x: nat, lo: nat, hi: nat) returns (l: Layout)
    requires CanLay(env, w, code, TNot(t), opt, tt, fl, p, lo, hi)
    ensures Laid(env, w, code, TNot(t), p, l, x, lo, hi, |Gen(env, TNot(t), opt, tt, fl)|)
    ensures l.link == Positions(env, TNot(t), opt, tt, fl, p)
    decreases Nest(env, TNot(t)), TNot(t), 1
  {
    hide Gen, GetFirst, CheckAux, HeadFail, CodeAt, LayoutOk, Env.Valid, Positions;
    NotPos(env, t, opt, tt, fl, p);
    NotShape(env, code, t, opt, tt, fl, p);
    var f := GetFirst(env, t, Full);
    if HeadFail(env, t) {
      var l1 := Single(env, w, code, p + 1, 0, x, lo, hi);
      l := Prefix(env, w, code, p, l1, 1, x, lo, hi);
    } else {
      var c := Gen(env, t, false, NoTest, Full);
      var p1 := if f.e then p else p + 1;
      var l1 := LayOut(env, w, code, t, false, NoTest, Full, p1 + 1, 0, lo, hi);
      NothingOk(env, w, code, p1 + 2 + |l1.pots|, x, lo, hi);
      var lc := Bracket(env, w, code, p1, l1, Nothing(), x, lo, hi);
      if f.e { l := lc; } else { l := Prefix(env, w, code, p, lc, 2 + |c|, x, lo, hi); }
    }
  }

  lemma {:induction false} LayOutAnd(env: Env, w: nat, code: seq<Instr>, t: Tree, opt: bool, tt: Test, fl: Charset,
                                     p: nat, x: nat, lo: nat, hi: nat) returns (l: Layout)
    requires CanLay(env, w, code, TAnd(t), opt, tt, fl, p, lo, hi)
    ensures Laid(env, w, code, TAnd(t), p, l, x, lo, hi, |Gen(env, TAnd(t), opt, tt, fl)|)
    ensures l.link == Positions(env, TAnd(t), opt, tt, fl, p)
    decreases Nest(env, TAnd(t)), TAnd(t), 1
  {
    hide Gen, GetFirst, CheckAux, HeadFail, FixedLen, CodeAt, LayoutOk, Env.Valid, Positions;
    AndPos(env, t, opt, tt, fl, p);
    AndShape(env, code, t, opt, tt, fl, p);
    var c := Gen(env, t, false, tt, Full);
    if AndByBehind(env, t) {
      if Fixed(env.tab.rules, t) > 0 {
        var l1 := LayOut(env, w, code, t, false, tt, Full, p, 0, lo, hi);
        var l2 := Single(env, w, code, p + |c|, 0, x, lo, hi);
        l := Join(env, w, code, p, l1, l2, x, lo, hi);
      } else {
        l := LayOut(env, w, code, t, false, tt, Full, p, x, lo, hi);
      }
    } else {
      var l1 := LayOut(env, w, code, t, false, tt, Full, p + 1, 0, lo, hi);
      var l2 := Single(env, w, code, p + 2 + |c|, 0, x, lo, hi);
      l := Bracket(env, w, code, p, l1, l2, x, lo, hi);
    }
  }

  lemma {:induction false} LayOutBehind(env: Env, w: nat, code: seq<Instr>, t: Tree, n: nat, opt: bool, tt: Test, fl: Charset,
                                        p: nat, x: nat, lo: nat, hi: nat) returns (l: Layout)
    requires CanLay(env, w, code, TBehind(t, n), opt, tt, fl, p, lo, hi)
    ensures Laid(env, w, code, TBehind(t, n), p, l, x, lo, hi, |Gen(env, TBehind(t, n), opt, tt, fl)|)
    ensures l.link == Positions(env, TBehind(t, n), opt, tt, fl, p)
    decreases Nest(env, TBehind(t, n)), TBehind(t, n), 1
  {
    hide Gen, GetFirst, CheckAux, HeadFail, CodeAt, LayoutOk, Env.Valid;
    BehindShape(env, code, t, n, opt, tt, fl, p);
    if n > 0 {
      var l1 := LayOut(env, w, code, t, false, NoTest, Full, p + 1, x, lo, hi);
      var l0 := Single(env, w, code, p, 0, At(l1.pots, x, 0), lo, hi);
      l := Join(env, w, code, p, l0, l1, x, lo, hi);
    } else {
      l := LayOut(env, w, code, t, false, NoTest, Full, p, x, lo, hi);
    }
  }

  lemma {:induction false} LayOutGrammar(env: Env, w: nat, code: seq<Instr>, f: nat, c: nat, opt: bool, tt: Test, fl: Charset,
                                         p: nat, x: nat, lo: nat, hi: nat) returns (l: Layout)
    requires CanLay(env, w, code, TGrammar(f, c), opt, tt, fl, p, lo, hi)
    ensures Laid(env, w, code, TGrammar(f, c), p, l, x, lo, hi, |Gen(env, TGrammar(f, c), opt, tt, fl)|)
    ensures l.link == Positions(env, TGrammar(f, c), opt, tt, fl, p)
    decreases Nest(env, TGrammar(f, c)), TGrammar(f, c), 1
  {
    hide Gen, GenRules, CodeAt, LayoutOk, Env.Valid;
    GrammarShape(env, code, f, c, opt, tt, fl, p);
    env.tab.GroupFacts(f, c);
    var lb := LayOutRules(env, w, code, f, c, f, p + 2, x);
    NowClosed(env, w, code, p + 2, lb, x, f, f + c, lo, hi);
    var lj := Prefix(env, w, code, p + 1, lb, |lb.pots|, x, lo, hi);
    var l0 := Single(env, w, code, p, 0, At(lj.pots, x, 0), lo, hi);
    l := Join(env, w, code, p, l0, lj, x, lo, hi);
  }

  /** Once all rules of a grammar are linked no call to them is left over. */
  lemma NowClosed(env: Env, w: nat, code: seq<Instr>, p: nat, l: Layout, x: nat, f: nat, g: nat, lo: nat, hi: nat)
    requires env.Valid() && LayoutOk(env, w, code, p, l, x, f, g)
    requires forall r :: f <= r < g ==> r in l.link
    ensures LayoutOk(env, w, code, p, l, x, lo, hi)
  {
  }

  lemma RulesShape(env: Env, code: seq<Instr>, f: nat, c: nat, i: nat, p: nat)
    requires env.Valid() && env.tab.GrammarsOk(TGrammar(f, c)) && f <= i < f + c
    requires CodeAt(code, p, GenRules(env, f, c, i))
    ensures i < |env.tab.rules| && env.tab.TreeOk(env.tab.rules[i], f, f + c)
    ensures Nest(env, env.tab.rules[i]) < Nest(env, TGrammar(f, c))
    ensures |GenRules(env, f, c, i)| == |RuleCode(env, i)| + |GenRules(env, f, c, i + 1)|
    ensures CodeAt(code, p, RuleCode(env, i)) && CodeAt(code, p + |RuleCode(env, i)|, GenRules(env, f, c, i + 1))
    ensures RulePositions(env, f, c, i, p) == map[i := p as int] + Positions(env, env.tab.rules[i], false, NoTest, Full, p)
      + RulePositions(env, f, c, i + 1, p + |RuleCode(env, i)|)
  {
    env.tab.GroupFacts(f, c);
    assert env.tab.TreeOk(env.tab.rules[i], env.tab.home[i], env.tab.home[i] + env.tab.size[i]);
    CodeAtSplit(code, p, RuleCode(env, i), GenRules(env, f, c, i + 1));
  }

  lemma TreeParts(tab: Table, t: Tree, lo: nat, hi: nat)
    requires tab.TreeOk(t, lo, hi)
    ensures tab.GrammarsOk(t) && CallsIn(t, lo, hi, tab.live) && hi <= |tab.rules|
  {
  }

  lemma {:induction false} LayOutRule(env: Env, w: nat, code: seq<Instr>, f: nat, c: nat, i: nat, p: nat, x: nat) returns (l: Layout)
    requires env.Valid() && env.tab.GrammarsOk(TGrammar(f, c)) && f <= i < f + c && i < |env.tab.rules|
    requires env.tab.TreeOk(env.tab.rules[i], f, f + c) && Nest(env, env.tab.rules[i]) < Nest(env, TGrammar(f, c))
    requires CodeAt(code, p, RuleCode(env, i)) && |RuleCode(env, i)| <= w && p + |RuleCode(env, i)| < |code|
    ensures LayoutOk(env, w, code, p, l, x, f, f + c) && |l.pots| == |RuleCode(env, i)|
    ensures l.link == map[i := p as int] + Positions(env, env.tab.rules[i], false, NoTest, Full, p)
    decreases Nest(env, TGrammar(f, c)), TGrammar(f, c), 0, 0
  {
    hide Gen, Positions, CodeAt, LayoutOk, Env.Valid, Level, EntryBound, Table.TreeOk;
    var t := env.tab.rules[i];
    assert env.tab.GrammarsOk(t) && CallsIn(t, f, f + c, env.tab.live) && f + c <= |env.tab.rules| by { TreeParts(env.tab, t, f, f + c); }
    var c1 := Gen(env, t, false, NoTest, Full);
    RuleCodeAt(env, code, i, p);
    var ls := Single(env, w, code, p + |c1|, 0, x, f, f + c);
    var l1 := LayOut(env, w, code, t, false, NoTest, Full, p, 0, f, f + c);
    var l2 := Join(env, w, code, p, l1, ls, x, f, f + c);
    RankOfRule(env, w, i, |c1|);
    l := AddRule(env, w, code, p, i, l2, x, f, f + c);
  }

  lemma NoRules(env: Env, f: nat, c: nat, p: int)
    requires env.Valid() && env.tab.GrammarsOk(TGrammar(f, c))
    ensures GenRules(env, f, c, f + c) == []
    ensures RulePositions(env, f, c, f + c, p) == map[]
  {
  }

  lemma {:induction false} LayOutRules(env: Env, w: nat, code: seq<Instr>, f: nat, c: nat, i: nat, p: nat, x: nat) returns (l: Layout)
    requires env.Valid() && env.tab.GrammarsOk(TGrammar(f, c)) && f <= i <= f + c
    requires CodeAt(code, p, GenRules(env, f, c, i)) && |GenRules(env, f, c, i)| <= w && p + |GenRules(env, f, c, i)| < |code|
    ensures LayoutOk(env, w, code, p, l, x, f, f + c) && |l.pots| == |GenRules(env, f, c, i)|
    ensures l.link == RulePositions(env, f, c, i, p)
    ensures forall r :: i <= r < f + c ==> r in l.link
    decreases Nest(env, TGrammar(f, c)), TGrammar(f, c), 0, f + c - i + 1
  {
    hide Gen, GenRules, Positions, RulePositions, LayoutOk, Env.Valid, Table.GrammarsOk, Table.TreeOk, Nest, RuleCode;
    if i == f + c {
      l := Nothing();
      NoRules(env, f, c, p);
      NothingOk(env, w, code, p, x, f, f + c);
    } else {
      RulesShape(env, code, f, c, i, p);
      var lr := LayOutRules(env, w, code, f, c, i + 1, p + |RuleCode(env, i)|, x);
      var l1 := LayOutRule(env, w, code, f, c, i, p, At(lr.pots, x, 0));
      l := Join(env, w, code, p, l1, lr, x, f, f + c);
    }
  }

  lemma RankOfRule(env: Env, w: nat, i: nat, len: nat)
    requires env.Valid() && i < |env.tab.rules| && len <= w
    ensures EntryBound(env, w, env.tab.rules[i], 0, len) <= Level(w, env.rank[i] + 1)
  {
    LevelMonotone(w, env.Left(env.tab.rules[i]), env.rank[i]);
  }

  lemma AddRule(env: Env, w: nat, code: seq<Instr>, p: nat, i: nat, l: Layout, x: nat, lo: nat, hi: nat) returns (l': Layout)
    requires env.Valid() && LayoutOk(env, w, code, p, l, x, lo, hi)
    requires i < |env.tab.rules| && CodeAt(code, p, RuleCode(env, i))
    requires |l.pots| > 0 && l.pots[0] <= Level(w, env.rank[i] + 1)
    ensures LayoutOk(env, w, code, p, l', x, lo, hi) && l' == l.(link := map[i := p as int] + l.link)
  {
    hide Level, CodeAt, RuleCode, Env.Valid, SegOk;
    l' := l.(link := map[i := p as int] + l.link);
  }
}
