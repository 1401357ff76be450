/**
 * The simulation of the meaning of a pattern by its generated code, by induction over the
 * evaluation of the pattern; calls are still open and go through the link map.
 */
module PegCorrect {
  import opened PegSyntax
  import opened PegSemantics
  import opened PegAnalysis
  import opened PegMachine
  import opened PegCodegen
  import opened PegSimulation

  function RuleCode(env: Env, r: nat): seq<Instr>
    requires env.Valid() && r < |env.tab.rules|
  {
    Gen(env, env.tab.rules[r], false, NoTest, Full) + [IRet]
  }

  /** Calls stay among live rules of the table. */
  predicate Calls(env: Env, t: Tree) { CallsIn(t, 0, |env.tab.rules|, env.tab.live) }

  /** Every open call of the program is linked to the code of its rule. */
  ghost predicate Linked(env: Env, g: Program)
    requires env.Valid()
  {
    && (forall r {:trigger g.link[r]} :: r in g.link ==>
      r < |env.tab.rules| && CodeAt(g.code, g.link[r], RuleCode(env, r)))
    && (forall i {:trigger g.code[i]} :: 0 <= i < |g.code| && g.code[i].IOpenCall? ==> g.code[i].rule in g.link)
  }

  lemma {:induction false} CallsWiden(t: Tree, lo: nat, hi: nat, n: nat, live: set<nat>)
    requires CallsIn(t, lo, hi, live) && hi <= n
    ensures CallsIn(t, 0, n, live)
  {
    match t
    case TRep(p) => CallsWiden(p, lo, hi, n, live);
    case TSeq(a, b) => CallsWiden(a, lo, hi, n, live); CallsWiden(b, lo, hi, n, live);
    case TChoice(a, b) => CallsWiden(a, lo, hi, n, live); CallsWiden(b, lo, hi, n, live);
    case TNot(p) => CallsWiden(p, lo, hi, n, live);
    case TAnd(p) => CallsWiden(p, lo, hi, n, live);
    case TBehind(p, _) => CallsWiden(p, lo, hi, n, live);
    case _ =>
  }

  lemma RuleCalls(env: Env, r: nat)
    requires env.Valid() && r < |env.tab.rules|
    ensures Calls(env, env.tab.rules[r]) && env.tab.GrammarsOk(env.tab.rules[r])
  {
    CallsWiden(env.tab.rules[r], env.tab.home[r], env.tab.home[r] + env.tab.size[r], |env.tab.rules|, env.tab.live);
  }

  lemma RuleCodeAt(env: Env, code: seq<Instr>, r: nat, p: int)
    requires env.Valid() && r < |env.tab.rules| && CodeAt(code, p, RuleCode(env, r))
    ensures var c := Gen(env, env.tab.rules[r], false, NoTest, Full);
      CodeAt(code, p, c) && p + |c| < |code| && code[p + |c|] == IRet
  {
    var c := Gen(env, env.tab.rules[r], false, NoTest, Full);
    CodeAtSplit(code, p, c, [IRet]);
    CodeAtOne(code, p + |c|, IRet);
  }

  ghost predicate Setting(env: Env, g: Program, t: Tree, opt: bool, fl: Charset, subj: seq<Byte>, s: nat, k: Stack) {
    && Sound(env) && Linked(env, g)
    && NodesOk(env, t) && Calls(env, t) && env.tab.GrammarsOk(t)
    && s <= |subj|
    && (opt ==> k.Choice? && fl == Full)
  }

  /** Main lemma: the code of `t` realises the meaning of `t`. */
  lemma {:induction false} Simulates(env: Env, g: Program, t: Tree, opt: bool, tt: Test, fl: Charset,
                                     subj: seq<Byte>, p: int, s: nat, k: Stack, fuel: nat)
    requires Setting(env, g, t, opt, fl, subj, s, k)
    requires CodeAt(g.code, p, Gen(env, t, opt, tt, fl))
    requires TestHolds(tt, subj, s)
    ensures Good(g, subj, opt, fl, Eval(env.tab.rules, t, subj, s, fuel), p, p + |Gen(env, t, opt, tt, fl)|, s, k)
    decreases fuel, t, 3
  {
    hide Gen, GetFirst, HeadFail, CheckAux, Eval, Good, Step;
    match t
    case TChar(c) => OneChar(env, g, t, opt, tt, fl, subj, p, s, k, fuel);
    case TSet(cs) => OneChar(env, g, t, opt, tt, fl, subj, p, s, k, fuel);
    case TAny => OneChar(env, g, t, opt, tt, fl, subj, p, s, k, fuel);
    case TTrue => Constant(env, g, t, opt, tt, fl, subj, p, s, k, fuel);
    case TFalse => Constant(env, g, t, opt, tt, fl, subj, p, s, k, fuel);
    case TSeq(a, b) => SimulatesSeq(env, g, a, b, opt, tt, fl, subj, p, s, k, fuel);
    case TChoice(a, b) => SimulatesChoice(env, g, a, b, opt, tt, fl, subj, p, s, k, fuel);
    case TRep(t1) => SimulatesRep(env, g, t1, opt, tt, fl, subj, p, s, k, fuel);
    case TNot(t1) => SimulatesNot(env, g, t1, opt, tt, fl, subj, p, s, k, fuel);
    case TAnd(t1) => SimulatesAnd(env, g, t1, opt, tt, fl, subj, p, s, k, fuel);
    case TBehind(t1, n) => SimulatesBehind(env, g, t1, n, opt, tt, fl, subj, p, s, k, fuel);
    case TCall(r) => SimulatesCall(env, g, r, opt, tt, fl, subj, p, s, k, fuel);
    case TGrammar(f, c) => SimulatesGrammar(env, g, f, c, opt, tt, fl, subj, p, s, k, fuel);
  }

  lemma Constant(env: Env, g: Program, t: Tree, opt: bool, tt: Test, fl: Charset,
                 subj: seq<Byte>, p: int, s: nat, k: Stack, fuel: nat)
    requires Setting(env, g, t, opt, fl, subj, s, k) && (t.TTrue? || t.TFalse?)
    requires CodeAt(g.code, p, Gen(env, t, opt, tt, fl))
    ensures Good(g, subj, opt, fl, Eval(env.tab.rules, t, subj, s, fuel), p, p + |Gen(env, t, opt, tt, fl)|, s, k)
  {
    if t.TTrue? {
      ReachesSelf(g, subj, Run(p, s, k));
      GoodEnd(g, subj, opt, fl, p, p, s, s, k);
    } else {
      CodeAtOne(g.code, p, IFail);
      ReachesOne(g, subj, Run(p, s, k), Failing(k));
    }
  }

  lemma BehindShape(env: Env, code: seq<Instr>, t: Tree, n: nat, opt: bool, tt: Test, fl: Charset, p: int)
    requires env.Valid() && env.tab.GrammarsOk(t) && CodeAt(code, p, Gen(env, TBehind(t, n), opt, tt, fl))
    ensures var m := if n > 0 then p + 1 else p; var c := Gen(env, t, false, NoTest, Full);
      && CodeAt(code, m, c) && p + |Gen(env, TBehind(t, n), opt, tt, fl)| == m + |c|
      && (n > 0 ==> 0 <= p < |code| && code[p] == IBehind(n))
  {
    var head := if n > 0 then [IBehind(n)] else [];
    CodeAtSplit(code, p, head, Gen(env, t, false, NoTest, Full));
    if n > 0 { CodeAtOne(code, p, IBehind(n)); }
  }

  lemma {:induction false} SimulatesBehind(env: Env, g: Program, t: Tree, n: nat, opt: bool, tt: Test, fl: Charset,
                                           subj: seq<Byte>, p: int, s: nat, k: Stack, fuel: nat)
    requires Setting(env, g, TBehind(t, n), opt, fl, subj, s, k)
    requires CodeAt(g.code, p, Gen(env, TBehind(t, n), opt, tt, fl))
    ensures Good(g, subj, opt, fl, Eval(env.tab.rules, TBehind(t, n), subj, s, fuel), p, p + |Gen(env, TBehind(t, n), opt, tt, fl)|, s, k)
    decreases fuel, TBehind(t, n), 2
  {
    hide Env.Valid;
    hide Gen;
    BehindShape(env, g.code, t, n, opt, tt, fl, p);
    var m := if n > 0 then p + 1 else p;
    if n <= s { Simulates(env, g, t, false, NoTest, Full, subj, m, s - n, k, fuel); }
    BehindGood(env, g, subj, t, n, fuel, fl, opt, p, m, m + |Gen(env, t, false, NoTest, Full)|, s, k);
  }

  lemma CallShape(env: Env, code: seq<Instr>, r: nat, opt: bool, tt: Test, fl: Charset, p: int)
    requires env.Valid() && CodeAt(code, p, Gen(env, TCall(r), opt, tt, fl))
    ensures |Gen(env, TCall(r), opt, tt, fl)| == 1 && 0 <= p < |code| && code[p] == IOpenCall(r)
  {
    CodeAtOne(code, p, IOpenCall(r));
  }

  lemma {:induction false} SimulatesCall(env: Env, g: Program, r: nat, opt: bool, tt: Test, fl: Charset,
                                         subj: seq<Byte>, p: int, s: nat, k: Stack, fuel: nat)
    requires Setting(env, g, TCall(r), opt, fl, subj, s, k)
    requires CodeAt(g.code, p, Gen(env, TCall(r), opt, tt, fl))
    ensures Good(g, subj, opt, fl, Eval(env.tab.rules, TCall(r), subj, s, fuel), p, p + |Gen(env, TCall(r), opt, tt, fl)|, s, k)
    decreases fuel, TCall(r), 2
  {
    hide Gen;
    CallShape(env, g.code, r, opt, tt, fl, p);
    if fuel > 0 {
      RuleCalls(env, r);
      RuleCodeAt(env, g.code, r, g.link[r]);
      Simulates(env, g, env.tab.rules[r], false, NoTest, Full, subj, g.link[r], s, Ret(p + 1, k), fuel - 1);
      CallGood(g, subj, opt, fl, Eval(env.tab.rules, TCall(r), subj, s, fuel), p, g.link[r],
               |Gen(env, env.tab.rules[r], false, NoTest, Full)|, p + 1, p + 1, s, k);
    }
  }

  lemma OneChar(env: Env, g: Program, t: Tree, opt: bool, tt: Test, fl: Charset,
                subj: seq<Byte>, p: int, s: nat, k: Stack, fuel: nat)
    requires Setting(env, g, t, opt, fl, subj, s, k) && IsCharset(t)
    requires CodeAt(g.code, p, Gen(env, t, opt, tt, fl)) && TestHolds(tt, subj, s)
    ensures Good(g, subj, opt, fl, Eval(env.tab.rules, t, subj, s, fuel), p, p + |Gen(env, t, opt, tt, fl)|, s, k)
  {
    var i := Gen(env, t, opt, tt, fl)[0];
    assert Gen(env, t, opt, tt, fl) == [i];
    CodeAtOne(g.code, p, i);
    if Next(subj, s, ToCharset(t)) {
      ReachesOne(g, subj, Run(p, s, k), Run(p + 1, s + 1, k));
      GoodEnd(g, subj, opt, fl, p, p + 1, s, s + 1, k);
    } else {
      ReachesOne(g, subj, Run(p, s, k), Failing(k));
    }
  }

  lemma SeqEq(env: Env, a: Tree, b: Tree, opt: bool, tt: Test, fl: Charset)
    requires env.Valid() && env.tab.GrammarsOk(TSeq(a, b))
    ensures Gen(env, TSeq(a, b), opt, tt, fl)
      == Gen(env, a, false, tt, SeqFollow(env, a, b, fl)) + Gen(env, b, opt, SeqTest(env, a, tt), fl)
  {
    hide GetFirst, CheckAux, HeadFail, FixedLen;
  }

  lemma SeqShape(env: Env, code: seq<Instr>, a: Tree, b: Tree, opt: bool, tt: Test, fl: Charset, p: int)
    requires env.Valid() && env.tab.GrammarsOk(TSeq(a, b)) && CodeAt(code, p, Gen(env, TSeq(a, b), opt, tt, fl))
    ensures var c1 := Gen(env, a, false, tt, SeqFollow(env, a, b, fl)); var c2 := Gen(env, b, opt, SeqTest(env, a, tt), fl);
      CodeAt(code, p, c1) && CodeAt(code, p + |c1|, c2) && |Gen(env, TSeq(a, b), opt, tt, fl)| == |c1| + |c2|
  {
    hide SeqFollow, SeqTest;
    hide Gen, GetFirst, CheckAux, HeadFail, FixedLen, CodeAt;
    SeqEq(env, a, b, opt, tt, fl);
    CodeAtSplit(code, p, Gen(env, a, false, tt, SeqFollow(env, a, b, fl)), Gen(env, b, opt, SeqTest(env, a, tt), fl));
  }

  lemma {:induction false} SimulatesSeq(env: Env, g: Program, a: Tree, b: Tree, opt: bool, tt: Test, fl: Charset,
                                        subj: seq<Byte>, p: int, s: nat, k: Stack, fuel: nat)
    requires Setting(env, g, TSeq(a, b), opt, fl, subj, s, k)
    requires CodeAt(g.code, p, Gen(env, TSeq(a, b), opt, tt, fl)) && TestHolds(tt, subj, s)
    ensures Good(g, subj, opt, fl, Eval(env.tab.rules, TSeq(a, b), subj, s, fuel), p, p + |Gen(env, TSeq(a, b), opt, tt, fl)|, s, k)
    decreases fuel, TSeq(a, b), 2
  {
    hide Env.Valid;
    hide Gen, GetFirst, CheckAux, HeadFail, FixedLen, CodeAt;
    var fl1 := SeqFollow(env, a, b, fl);
    var c1 := Gen(env, a, false, tt, fl1);
    var tt2 := SeqTest(env, a, tt);
    var c2 := Gen(env, b, opt, tt2, fl);
    SeqShape(env, g.code, a, b, opt, tt, fl, p);
    var r1 := Eval(env.tab.rules, a, subj, s, fuel);
    EvalBounds(env.tab.rules, a, subj, s, fuel);
    Simulates(env, g, a, false, tt, fl1, subj, p, s, k, fuel);
    var r2 := Out;
    if r1.Ok? {
      if Fixed(env.tab.rules, a) == 0 { FixedLenSound(env.tab.rules, a, AllRules(env.tab.rules), subj, s, fuel); }
      Simulates(env, g, b, opt, tt2, fl, subj, p + |c1|, r1.pos, k, fuel);
      r2 := Eval(env.tab.rules, b, subj, r1.pos, fuel);
      FirstSound(env, b, fl, subj, r1.pos, fuel);
    }
    SeqGood(g, subj, opt, fl1, fl, r1, r2, p, p + |c1|, p + |c1| + |c2|, s, k);
  }

  lemma ReuseShape(env: Env, code: seq<Instr>, a: Tree, tt: Test, fl: Charset, p: int)
    requires env.Valid() && env.tab.GrammarsOk(a) && !ChoiceByTest(env, a, TTrue, fl)
    requires CodeAt(code, p, Gen(env, TChoice(a, TTrue), true, tt, fl))
    ensures var c1 := Gen(env, a, true, NoTest, Full);
      && 0 <= p < |code| && code[p] == IPartialCommit(1) && CodeAt(code, p + 1, c1)
      && |Gen(env, TChoice(a, TTrue), true, tt, fl)| == 1 + |c1|
  {
    CodeAtSplit(code, p, [IPartialCommit(1)], Gen(env, a, true, NoTest, Full));
    CodeAtOne(code, p, IPartialCommit(1));
  }

  lemma ChoiceTestEq(env: Env, a: Tree, b: Tree, opt: bool, tt: Test, fl: Charset)
    requires env.Valid() && env.tab.GrammarsOk(TChoice(a, b)) && ChoiceByTest(env, a, b, fl)
    ensures var cs := GetFirst(env, a, Full).cs; var c1 := Gen(env, a, false, Dominated(CodeTest(cs, 0)), fl);
      var c2 := Gen(env, b, opt, NoTest, fl);
      Gen(env, TChoice(a, b), opt, tt, fl) ==
        if b.TTrue? then [CodeTest(cs, 1 + |c1|)] + c1 + c2 else [CodeTest(cs, 2 + |c1|)] + c1 + [IJmp(1 + |c2|)] + c2
    ensures b.TTrue? ==> Gen(env, b, opt, tt, fl) == []
  {
    hide GetFirst, CheckAux, HeadFail, FixedLen;
  }

  lemma ChoiceTestShape(env: Env, code: seq<Instr>, a: Tree, b: Tree, opt: bool, tt: Test, fl: Charset, p: int)
    requires env.Valid() && env.tab.GrammarsOk(TChoice(a, b)) && ChoiceByTest(env, a, b, fl)
    requires CodeAt(code, p, Gen(env, TChoice(a, b), opt, tt, fl))
    ensures var cs := GetFirst(env, a, Full).cs; var c1 := Gen(env, a, false, Dominated(CodeTest(cs, 0)), fl);
      var c2 := Gen(env, b, opt, NoTest, fl); var l1 := if b.TTrue? then p + 1 + |c1| else p + 2 + |c1|;
      && 0 <= p < |code| && code[p] == CodeTest(cs, l1 - p)
      && CodeAt(code, p + 1, c1) && CodeAt(code, l1, c2) && p + |Gen(env, TChoice(a, b), opt, tt, fl)| == l1 + |c2|
      && (b.TTrue? ==> c2 == [])
      && (!b.TTrue? ==> l1 <= |code| && code[l1 - 1] == IJmp(1 + |c2|))
  {
    hide Gen, GetFirst, CheckAux, HeadFail, FixedLen, CodeAt;
    ChoiceTestEq(env, a, b, opt, tt, fl);
    ChoiceTestEq(env, a, b, opt, NoTest, fl);
    var cs := GetFirst(env, a, Full).cs;
    var c1 := Gen(env, a, false, Dominated(CodeTest(cs, 0)), fl);
    var c2 := Gen(env, b, opt, NoTest, fl);
    var l := if b.TTrue? then 1 + |c1| else 2 + |c1|;
    var i, j := CodeTest(cs, l), IJmp(1 + |c2|);
    if b.TTrue? { CodeAtSplit3(code, p, [i], c1, c2); }
    else {
      CodeAtSplit4(code, p, [i], c1, [j], c2);
      CodeAtOne(code, p + 1 + |c1|, j);
    }
    CodeAtOne(code, p, i);
  }

  lemma ChoicePointEq(env: Env, a: Tree, b: Tree, opt: bool, tt: Test, fl: Charset)
    requires env.Valid() && env.tab.GrammarsOk(TChoice(a, b)) && !ChoiceByTest(env, a, b, fl) && !(opt && b.TTrue?)
    ensures var f1 := GetFirst(env, a, Full); var c1 := Gen(env, a, b.TTrue?, TestOf(f1), Full);
      var c2 := Gen(env, b, opt, NoTest, fl);
      && Gen(env, TChoice(a, b), opt, tt, fl)
        == CodeTestSet(f1, 3 + |c1|) + [IChoice(2 + |c1|)] + c1 + [ICommit(1 + |c2|)] + c2
      && (b.TTrue? ==> c2 == [])
  {
    hide GetFirst, CheckAux, HeadFail, FixedLen;
  }

  lemma ChoicePointShape(env: Env, code: seq<Instr>, a: Tree, b: Tree, opt: bool, tt: Test, fl: Charset, p: int)
    requires env.Valid() && env.tab.GrammarsOk(TChoice(a, b)) && !ChoiceByTest(env, a, b, fl) && !(opt && b.TTrue?)
    requires CodeAt(code, p, Gen(env, TChoice(a, b), opt, tt, fl))
    ensures var f1 := GetFirst(env, a, Full); var c1 := Gen(env, a, b.TTrue?, TestOf(f1), Full);
      var c2 := Gen(env, b, opt, NoTest, fl); var p1 := if f1.e then p else p + 1; var l1 := p1 + 2 + |c1|;
      && (!f1.e ==> 0 <= p < |code| && code[p] == CodeTest(f1.cs, l1 - p))
      && 0 <= p1 && l1 <= |code| && code[p1] == IChoice(l1 - p1) && code[l1 - 1] == ICommit(1 + |c2|)
      && CodeAt(code, p1 + 1, c1) && CodeAt(code, l1, c2) && p + |Gen(env, TChoice(a, b), opt, tt, fl)| == l1 + |c2|
      && (b.TTrue? ==> c2 == [])
  {
    hide Gen, GetFirst, CheckAux, HeadFail, FixedLen, CodeAt;
    ChoicePointEq(env, a, b, opt, tt, fl);
    var f1 := GetFirst(env, a, Full);
    var c1 := Gen(env, a, b.TTrue?, TestOf(f1), Full);
    var c2 := Gen(env, b, opt, NoTest, fl);
    var test := CodeTestSet(f1, 3 + |c1|);
    var i, j := IChoice(2 + |c1|), ICommit(1 + |c2|);
    CodeAtSplit5(code, p, test, [i], c1, [j], c2);
    CodeAtOne(code, p + |test|, i);
    CodeAtOne(code, p + |test| + 1 + |c1|, j);
    if !f1.e { CodeAtOne(code, p, CodeTest(f1.cs, 3 + |c1|)); }
  }

  lemma {:induction false} SimulatesChoice(env: Env, g: Program, a: Tree, b: Tree, opt: bool, tt: Test, fl: Charset,
                                           subj: seq<Byte>, p: int, s: nat, k: Stack, fuel: nat)
    requires Setting(env, g, TChoice(a, b), opt, fl, subj, s, k)
    requires CodeAt(g.code, p, Gen(env, TChoice(a, b), opt, tt, fl))
    ensures Good(g, subj, opt, fl, Eval(env.tab.rules, TChoice(a, b), subj, s, fuel), p, p + |Gen(env, TChoice(a, b), opt, tt, fl)|, s, k)
    decreases fuel, TChoice(a, b), 2
  {
    if ChoiceByTest(env, a, b, fl) {
      SimulatesChoiceTest(env, g, a, b, opt, tt, fl, subj, p, s, k, fuel);
    } else if opt && b.TTrue? {
      hide Gen, GetFirst, CheckAux, HeadFail;
      var c1 := Gen(env, a, true, NoTest, Full);
      ReuseShape(env, g.code, a, tt, fl, p);
      Simulates(env, g, a, true, NoTest, Full, subj, p + 1, s, k.(s := s), fuel);
      ChoiceReuseGood(env, g, subj, a, fuel, p, p + 1 + |c1|, s, k);
    } else {
      SimulatesChoicePoint(env, g, a, b, opt, tt, fl, subj, p, s, k, fuel);
    }
  }

  lemma {:induction false} SimulatesChoiceTest(env: Env, g: Program, a: Tree, b: Tree, opt: bool, tt: Test, fl: Charset,
                                               subj: seq<Byte>, p: int, s: nat, k: Stack, fuel: nat)
    requires Setting(env, g, TChoice(a, b), opt, fl, subj, s, k) && ChoiceByTest(env, a, b, fl)
    requires CodeAt(g.code, p, Gen(env, TChoice(a, b), opt, tt, fl))
    ensures Good(g, subj, opt, fl, Eval(env.tab.rules, TChoice(a, b), subj, s, fuel), p, p + |Gen(env, TChoice(a, b), opt, tt, fl)|, s, k)
    decreases fuel, TChoice(a, b), 1
  {
    hide Linked;
    hide Env.Valid;
    hide Eval, Step, Reaches, CodeTest;
    hide Gen, GetFirst, CheckAux, HeadFail, Good;
    var f1 := GetFirst(env, a, Full);
    var tt1 := Dominated(CodeTest(f1.cs, 0));
    var c1 := Gen(env, a, false, tt1, fl);
    var c2 := Gen(env, b, opt, NoTest, fl);
    var l1 := if b.TTrue? then p + 1 + |c1| else p + 2 + |c1|;
    ChoiceTestShape(env, g.code, a, b, opt, tt, fl, p);
    TestStep(g, subj, f1.cs, l1 - p, p, s, k);
    if Next(subj, s, f1.cs) { Simulates(env, g, a, false, tt1, fl, subj, p + 1, s, k, fuel); }
    Simulates(env, g, b, opt, NoTest, fl, subj, l1, s, k, fuel);
    ChoiceTestGood(env, g, subj, a, b, opt, fl, fuel, p, |c1|, l1, l1 + |c2|, s, k);
  }

  lemma {:induction false} SimulatesChoicePoint(env: Env, g: Program, a: Tree, b: Tree, opt: bool, tt: Test, fl: Charset,
                                                subj: seq<Byte>, p: int, s: nat, k: Stack, fuel: nat)
    requires Setting(env, g, TChoice(a, b), opt, fl, subj, s, k) && !ChoiceByTest(env, a, b, fl) && !(opt && b.TTrue?)
    requires CodeAt(g.code, p, Gen(env, TChoice(a, b), opt, tt, fl))
    ensures Good(g, subj, opt, fl, Eval(env.tab.rules, TChoice(a, b), subj, s, fuel), p, p + |Gen(env, TChoice(a, b), opt, tt, fl)|, s, k)
    decreases fuel, TChoice(a, b), 1
  {
    hide Linked;
    hide Env.Valid;
    hide Eval, Step, Reaches, CodeTest;
    hide Gen, GetFirst, CheckAux, HeadFail, Good;
    var f1 := GetFirst(env, a, Full);
    var c1 := Gen(env, a, b.TTrue?, TestOf(f1), Full);
    var c2 := Gen(env, b, opt, NoTest, fl);
    ChoicePointShape(env, g.code, a, b, opt, tt, fl, p);
    var p1 := if f1.e then p else p + 1;
    var l1, q := p1 + 2 + |c1|, p1 + 2 + |c1| + |c2|;
    var r := Eval(env.tab.rules, TChoice(a, b), subj, s, fuel);
    Simulates(env, g, b, opt, NoTest, fl, subj, l1, s, k, fuel);
    if !f1.e { TestStep(g, subj, f1.cs, l1 - p, p, s, k); }
    if f1.e || Next(subj, s, f1.cs) {
      Simulates(env, g, a, b.TTrue?, TestOf(f1), Full, subj, p1 + 1, s, Choice(l1, s, k), fuel);
      ChoicePointGood(env, g, subj, a, b, opt, fl, fuel, p1, l1, q, s, k);
    } else {
      TestRejects(env, a, subj, s, fuel);
      ChoiceSkips(env, g, subj, a, b, opt, fl, fuel, l1, q, s, k);
    }
    if !f1.e { TestedGood(env, g, subj, a, opt, fl, r, p, l1, q, s, k); }
  }

  lemma ChoiceSkips(env: Env, g: Program, subj: seq<Byte>, a: Tree, b: Tree, opt: bool, fl: Charset, fuel: nat,
                    l1: int, q: int, s: nat, k: Stack)
    requires opt ==> k.Choice?
    requires !Eval(env.tab.rules, a, subj, s, fuel).Ok?
    requires Good(g, subj, opt, fl, Eval(env.tab.rules, b, subj, s, fuel), l1, q, s, k)
    ensures Good(g, subj, opt, fl, Eval(env.tab.rules, TChoice(a, b), subj, s, fuel), l1, q, s, k)
  {
  }

  lemma NotEq(env: Env, t: Tree, opt: bool, tt: Test, fl: Charset)
    requires env.Valid() && env.tab.GrammarsOk(t)
    ensures var f := GetFirst(env, t, Full); var c := Gen(env, t, false, NoTest, Full);
      Gen(env, TNot(t), opt, tt, fl) ==
        if HeadFail(env, t) then CodeTestSet(f, 2) + [IFail]
        else CodeTestSet(f, 3 + |c|) + [IChoice(2 + |c|)] + c + [IFailTwice]
  {
    hide GetFirst, CheckAux, HeadFail, FixedLen;
  }

  lemma NotSkips(env: Env, g: Program, subj: seq<Byte>, t: Tree, opt: bool, fl: Charset, fuel: nat, q: int, s: nat, k: Stack)
    requires opt ==> k.Choice?
    requires !Eval(env.tab.rules, t, subj, s, fuel).Ok?
    ensures Good(g, subj, opt, fl, Eval(env.tab.rules, TNot(t), subj, s, fuel), q, q, s, k)
  {
    ReachesSelf(g, subj, Run(q, s, k));
    GoodEnd(g, subj, opt, fl, q, q, s, s, k);
  }

  lemma NotShape(env: Env, code: seq<Instr>, t: Tree, opt: bool, tt: Test, fl: Charset, p: int)
    requires env.Valid() && env.tab.GrammarsOk(t) && CodeAt(code, p, Gen(env, TNot(t), opt, tt, fl))
    ensures var f := GetFirst(env, t, Full); var p1 := if f.e then p else p + 1;
      if HeadFail(env, t) then
        && 0 <= p && p + 2 <= |code| && code[p] == CodeTest(f.cs, 2) && code[p + 1] == IFail
        && |Gen(env, TNot(t), opt, tt, fl)| == 2
      else
        var c := Gen(env, t, false, NoTest, Full); var q := p1 + 2 + |c|;
        && (!f.e ==> 0 <= p < |code| && code[p] == CodeTest(f.cs, q - p))
        && 0 <= p1 && q <= |code| && code[p1] == IChoice(q - p1) && code[q - 1] == IFailTwice
        && CodeAt(code, p1 + 1, c) && p + |Gen(env, TNot(t), opt, tt, fl)| == q
  {
    hide Gen, GetFirst, CheckAux, HeadFail, FixedLen, CodeAt;
    NotEq(env, t, opt, tt, fl);
    var f := GetFirst(env, t, Full);
    if HeadFail(env, t) {
      HeadFailNotEmpty(env, t, Full);
      CodeAtSplit(code, p, [CodeTest(f.cs, 2)], [IFail]);
      CodeAtOne(code, p, CodeTest(f.cs, 2));
      CodeAtOne(code, p + 1, IFail);
    } else {
      NotChoiceShape(env, code, t, p);
    }
  }

  lemma NotChoiceShape(env: Env, code: seq<Instr>, t: Tree, p: int)
    requires env.Valid() && env.tab.GrammarsOk(t)
    requires var f := GetFirst(env, t, Full); var c := Gen(env, t, false, NoTest, Full);
      CodeAt(code, p, CodeTestSet(f, 3 + |c|) + [IChoice(2 + |c|)] + c + [IFailTwice])
    ensures var f := GetFirst(env, t, Full); var c := Gen(env, t, false, NoTest, Full);
      var p1 := if f.e then p else p + 1; var q := p1 + 2 + |c|;
      && (!f.e ==> 0 <= p < |code| && code[p] == CodeTest(f.cs, q - p))
      && 0 <= p1 && q <= |code| && code[p1] == IChoice(q - p1) && code[q - 1] == IFailTwice
      && CodeAt(code, p1 + 1, c)
  {
    hide Gen, GetFirst, CheckAux, HeadFail, FixedLen, CodeAt;
    var f := GetFirst(env, t, Full);
    var c := Gen(env, t, false, NoTest, Full);
    var test := CodeTestSet(f, 3 + |c|);
    var i := IChoice(2 + |c|);
    CodeAtSplit4(code, p, test, [i], c, [IFailTwice]);
    CodeAtOne(code, p + |test|, i);
    CodeAtOne(code, p + |test| + 1 + |c|, IFailTwice);
    if !f.e { CodeAtOne(code, p, CodeTest(f.cs, 3 + |c|)); }
  }

  lemma {:induction false} SimulatesNot(env: Env, g: Program, t: Tree, opt: bool, tt: Test, fl: Charset,
                                        subj: seq<Byte>, p: int, s: nat, k: Stack, fuel: nat)
    requires Setting(env, g, TNot(t), opt, fl, subj, s, k)
    requires CodeAt(g.code, p, Gen(env, TNot(t), opt, tt, fl))
    ensures Good(g, subj, opt, fl, Eval(env.tab.rules, TNot(t), subj, s, fuel), p, p + |Gen(env, TNot(t), opt, tt, fl)|, s, k)
    decreases fuel, TNot(t), 2
  {
    hide Linked;
    hide Env.Valid;
    hide Eval, Step, Reaches, Good, CodeTest;
    hide Gen, GetFirst, CheckAux, HeadFail;
    var f := GetFirst(env, t, Full);
    NotShape(env, g.code, t, opt, tt, fl, p);
    if HeadFail(env, t) {
      NotTestGood(env, g, subj, t, fuel, fl, opt, p, s, k);
    } else {
      var c := Gen(env, t, false, NoTest, Full);
      var p1 := if f.e then p else p + 1;
      var q := p1 + 2 + |c|;
      Simulates(env, g, t, false, NoTest, Full, subj, p1 + 1, s, Choice(q, s, k), fuel);
      NotChoiceGood(env, g, subj, t, fuel, fl, opt, p1, q, s, k);
      if !f.e {
        if !Next(subj, s, f.cs) {
          TestRejects(env, t, subj, s, fuel);
          NotSkips(env, g, subj, t, opt, fl, fuel, q, s, k);
        }
        TestedGood(env, g, subj, t, opt, fl, Eval(env.tab.rules, TNot(t), subj, s, fuel), p, q, q, s, k);
      }
    }
  }

  lemma AndEq(env: Env, t: Tree, opt: bool, tt: Test, fl: Charset)
    requires env.Valid() && env.tab.GrammarsOk(t)
    ensures var c := Gen(env, t, false, tt, Full); var n := Fixed(env.tab.rules, t);
      Gen(env, TAnd(t), opt, tt, fl) ==
        if AndByBehind(env, t) then c + (if n > 0 then [IBehind(n)] else [])
        else [IChoice(2 + |c|)] + c + [IBackCommit(2)] + [IFail]
  {
    hide GetFirst, CheckAux, HeadFail, FixedLen;
  }

  lemma AndShape(env: Env, code: seq<Instr>, t: Tree, opt: bool, tt: Test, fl: Charset, p: int)
    requires env.Valid() && env.tab.GrammarsOk(t) && CodeAt(code, p, Gen(env, TAnd(t), opt, tt, fl))
    ensures var c := Gen(env, t, false, tt, Full); var n := Fixed(env.tab.rules, t);
      if AndByBehind(env, t) then
        && CodeAt(code, p, c) && |Gen(env, TAnd(t), opt, tt, fl)| == |c| + (if n > 0 then 1 else 0)
        && (n > 0 ==> p + |c| < |code| && code[p + |c|] == IBehind(n))
      else
        && CodeAt(code, p + 1, c) && |Gen(env, TAnd(t), opt, tt, fl)| == |c| + 3
        && 0 <= p && p + 3 + |c| <= |code| && code[p] == IChoice(2 + |c|)
        && code[p + 1 + |c|] == IBackCommit(2) && code[p + 2 + |c|] == IFail
  {
    hide Gen, GetFirst, CheckAux, HeadFail, FixedLen, CodeAt;
    AndEq(env, t, opt, tt, fl);
    var c := Gen(env, t, false, tt, Full);
    if AndByBehind(env, t) {
      var n := Fixed(env.tab.rules, t);
      CodeAtSplit(code, p, c, if n > 0 then [IBehind(n)] else []);
      if n > 0 { CodeAtOne(code, p + |c|, IBehind(n)); }
    } else {
      var i := IChoice(2 + |c|);
      assert Gen(env, TAnd(t), opt, tt, fl) == [i] + c + [IBackCommit(2)] + [IFail];
      CodeAtSplit4(code, p, [i], c, [IBackCommit(2)], [IFail]);
      CodeAtOne(code, p, i);
      CodeAtOne(code, p + 1 + |c|, IBackCommit(2));
      CodeAtOne(code, p + 2 + |c|, IFail);
    }
  }

  lemma {:induction false} SimulatesAnd(env: Env, g: Program, t: Tree, opt: bool, tt: Test, fl: Charset,
                                        subj: seq<Byte>, p: int, s: nat, k: Stack, fuel: nat)
    requires Setting(env, g, TAnd(t), opt, fl, subj, s, k)
    requires CodeAt(g.code, p, Gen(env, TAnd(t), opt, tt, fl)) && TestHolds(tt, subj, s)
    ensures Good(g, subj, opt, fl, Eval(env.tab.rules, TAnd(t), subj, s, fuel), p, p + |Gen(env, TAnd(t), opt, tt, fl)|, s, k)
    decreases fuel, TAnd(t), 2
  {
    hide Linked;
    hide Env.Valid;
    hide Gen, GetFirst, CheckAux, HeadFail, FixedLen;
    var c := Gen(env, t, false, tt, Full);
    AndShape(env, g.code, t, opt, tt, fl, p);
    if AndByBehind(env, t) {
      var q := p + |c| + (if Fixed(env.tab.rules, t) > 0 then 1 else 0);
      Simulates(env, g, t, false, tt, Full, subj, p, s, k, fuel);
      AndBehindGood(env, g, subj, t, fuel, fl, opt, p, p + |c|, q, s, k);
    } else {
      Simulates(env, g, t, false, tt, Full, subj, p + 1, s, Choice(p + 2 + |c|, s, k), fuel);
      AndChoiceGood(env, g, subj, t, fuel, fl, opt, p, p + 3 + |c|, s, k);
    }
  }

  lemma GrammarShape(env: Env, code: seq<Instr>, f: nat, c: nat, opt: bool, tt: Test, fl: Charset, p: int)
    requires env.Valid() && env.tab.GrammarsOk(TGrammar(f, c)) && CodeAt(code, p, Gen(env, TGrammar(f, c), opt, tt, fl))
    ensures var len := |Gen(env, TGrammar(f, c), opt, tt, fl)|;
      && len >= 2 && 0 <= p && p + 2 <= |code| && code[p] == ICall(2) && code[p + 1] == IJmp(len - 1)
      && CodeAt(code, p + 2, RuleCode(env, f)) && CodeAt(code, p + 2, GenRules(env, f, c, f))
      && len == 2 + |GenRules(env, f, c, f)|
  {
    var body := GenRules(env, f, c, f);
    CodeAtSplit(code, p, [ICall(2), IJmp(1 + |body|)], body);
    assert [ICall(2), IJmp(1 + |body|)] == [ICall(2)] + [IJmp(1 + |body|)];
    CodeAtSplit(code, p, [ICall(2)], [IJmp(1 + |body|)]);
    CodeAtOne(code, p, ICall(2));
    CodeAtOne(code, p + 1, IJmp(1 + |body|));
    assert body == RuleCode(env, f) + GenRules(env, f, c, f + 1);
    CodeAtSplit(code, p + 2, RuleCode(env, f), GenRules(env, f, c, f + 1));
  }

  lemma {:induction false} SimulatesGrammar(env: Env, g: Program, f: nat, c: nat, opt: bool, tt: Test, fl: Charset,
                                            subj: seq<Byte>, p: int, s: nat, k: Stack, fuel: nat)
    requires Setting(env, g, TGrammar(f, c), opt, fl, subj, s, k)
    requires CodeAt(g.code, p, Gen(env, TGrammar(f, c), opt, tt, fl))
    ensures Good(g, subj, opt, fl, Eval(env.tab.rules, TGrammar(f, c), subj, s, fuel), p, p + |Gen(env, TGrammar(f, c), opt, tt, fl)|, s, k)
    decreases fuel, TGrammar(f, c), 2
  {
    hide CodeAt, Linked;
    hide Gen, GenRules;
    GrammarShape(env, g.code, f, c, opt, tt, fl, p);
    if fuel > 0 {
      var c1 := Gen(env, env.tab.rules[f], false, NoTest, Full);
      var q := p + |Gen(env, TGrammar(f, c), opt, tt, fl)|;
      RuleCodeAt(env, g.code, f, p + 2);
      RuleCalls(env, f);
      Simulates(env, g, env.tab.rules[f], false, NoTest, Full, subj, p + 2, s, Ret(p + 1, k), fuel - 1);
      CallGood(g, subj, opt, fl, Eval(env.tab.rules, TGrammar(f, c), subj, s, fuel), p, p + 2, |c1|, p + 1, q, s, k);
    }
  }

  lemma RepEq(env: Env, t: Tree, opt: bool, tt: Test, fl: Charset)
    requires env.Valid() && env.tab.GrammarsOk(t)
    ensures var f := GetFirst(env, t, Full);
      if IsCharset(t) then Gen(env, TRep(t), opt, tt, fl) == [ISpan(ToCharset(t))]
      else if RepByTest(env, t, fl) then
        var c := Gen(env, t, false, Dominated(CodeTest(f.cs, 0)), Full);
        Gen(env, TRep(t), opt, tt, fl) == [CodeTest(f.cs, 2 + |c|)] + c + [IJmp(-(1 + |c|))]
      else
        var c := Gen(env, t, false, NoTest, Full);
        Gen(env, TRep(t), opt, tt, fl) == CodeTestSet(f, 3 + |c|)
          + [if opt then IPartialCommit(1) else IChoice(2 + |c|)] + c + [IPartialCommit(-|c|)]
  {
    hide GetFirst, CheckAux, HeadFail, FixedLen;
  }

  lemma RepShape(env: Env, code: seq<Instr>, t: Tree, opt: bool, tt: Test, fl: Charset, p: int)
    requires env.Valid() && env.tab.GrammarsOk(t) && CodeAt(code, p, Gen(env, TRep(t), opt, tt, fl))
    ensures var len := |Gen(env, TRep(t), opt, tt, fl)|; var f := GetFirst(env, t, Full);
      if IsCharset(t) then len == 1 && 0 <= p < |code| && code[p] == ISpan(ToCharset(t))
      else if RepByTest(env, t, fl) then
        var c := Gen(env, t, false, Dominated(CodeTest(f.cs, 0)), Full);
        && len == 2 + |c| && 0 <= p && p + len <= |code| && CodeAt(code, p + 1, c)
        && code[p] == CodeTest(f.cs, 2 + |c|) && code[p + 1 + |c|] == IJmp(-(1 + |c|))
      else
        var c := Gen(env, t, false, NoTest, Full); var p1 := if f.e then p else p + 1; var q := p1 + 2 + |c|;
        && (!f.e ==> 0 <= p < |code| && code[p] == CodeTest(f.cs, q - p))
        && p + len == q && 0 <= p1 && q <= |code| && CodeAt(code, p1 + 1, c)
        && code[p1] == (if opt then IPartialCommit(1) else IChoice(q - p1)) && code[q - 1] == IPartialCommit(-|c|)
  {
    hide Gen, GetFirst, CheckAux, HeadFail, FixedLen, CodeAt;
    RepEq(env, t, opt, tt, fl);
    var f := GetFirst(env, t, Full);
    if IsCharset(t) {
      CodeAtOne(code, p, ISpan(ToCharset(t)));
    } else if RepByTest(env, t, fl) {
      var c := Gen(env, t, false, Dominated(CodeTest(f.cs, 0)), Full);
      var i, j := CodeTest(f.cs, 2 + |c|), IJmp(-(1 + |c|));
      CodeAtSplit3(code, p, [i], c, [j]);
      CodeAtOne(code, p, i);
      CodeAtOne(code, p + 1 + |c|, j);
    } else {
      var c := Gen(env, t, false, NoTest, Full);
      var test := CodeTestSet(f, 3 + |c|);
      var i := if opt then IPartialCommit(1) else IChoice(2 + |c|);
      CodeAtSplit4(code, p, test, [i], c, [IPartialCommit(-|c|)]);
      CodeAtOne(code, p + |test|, i);
      CodeAtOne(code, p + |test| + 1 + |c|, IPartialCommit(-|c|));
      if !f.e { CodeAtOne(code, p, CodeTest(f.cs, 3 + |c|)); }
    }
  }

  lemma {:induction false} SimulatesRep(env: Env, g: Program, t: Tree, opt: bool, tt: Test, fl: Charset,
                                        subj: seq<Byte>, p: int, s: nat, k: Stack, fuel: nat)
    requires Setting(env, g, TRep(t), opt, fl, subj, s, k)
    requires CodeAt(g.code, p, Gen(env, TRep(t), opt, tt, fl))
    ensures Good(g, subj, opt, fl, Eval(env.tab.rules, TRep(t), subj, s, fuel), p, p + |Gen(env, TRep(t), opt, tt, fl)|, s, k)
    decreases fuel, TRep(t), 2
  {
    hide Gen, GetFirst, CheckAux, HeadFail;
    if IsCharset(t) {
      RepShape(env, g.code, t, opt, tt, fl, p);
      SpanIsRep(env.tab.rules, t, subj, s, fuel);
      var e := Span(subj, s, ToCharset(t));
      ReachesOne(g, subj, Run(p, s, k), Run(p + 1, e, k));
      GoodEnd(g, subj, opt, fl, p, p + 1, s, e, k);
    } else if RepByTest(env, t, fl) {
      RepShape(env, g.code, t, opt, tt, fl, p);
      RepTestLoop(env, g, t, opt, fl, subj, p, s, k, fuel);
    } else {
      SimulatesRepChoice(env, g, t, opt, tt, fl, subj, p, s, k, fuel);
    }
  }

  /** The loop `L1: test -> L2; <t>; jmp L1; L2:`. */
  lemma {:induction false} RepTestLoop(env: Env, g: Program, t: Tree, opt: bool, fl: Charset,
                                       subj: seq<Byte>, p: int, s: nat, k: Stack, fuel: nat)
    requires Setting(env, g, TRep(t), opt, fl, subj, s, k) && RepByTest(env, t, fl)
    requires var f := GetFirst(env, t, Full); var c := Gen(env, t, false, Dominated(CodeTest(f.cs, 0)), Full);
      && CodeAt(g.code, p + 1, c) && 0 <= p < |g.code| && g.code[p] == CodeTest(f.cs, 2 + |c|)
      && p + 1 + |c| < |g.code| && g.code[p + 1 + |c|] == IJmp(-(1 + |c|))
    ensures var f := GetFirst(env, t, Full); var c := Gen(env, t, false, Dominated(CodeTest(f.cs, 0)), Full);
      Good(g, subj, opt, fl, Eval(env.tab.rules, TRep(t), subj, s, fuel), p, p + 2 + |c|, s, k)
    decreases fuel, TRep(t), 1
  {
    hide Env.Valid;
    hide CodeAt, Linked, Reaches;
    hide Gen, GetFirst, CheckAux, HeadFail;
    var f := GetFirst(env, t, Full);
    var tt1 := Dominated(CodeTest(f.cs, 0));
    var c := Gen(env, t, false, tt1, Full);
    var q := p + 2 + |c|;
    TestStep(g, subj, f.cs, 2 + |c|, p, s, k);
    if HeadFail(env, t) { HeadFailNotEmpty(env, t, Full); }
    if !Next(subj, s, f.cs) {
      TestRejects(env, t, subj, s, fuel);
      GoodEnd(g, subj, opt, fl, p, q, s, s, k);
    } else {
      Simulates(env, g, t, false, tt1, Full, subj, p + 1, s, k, fuel);
      match Eval(env.tab.rules, t, subj, s, fuel)
      case Out =>
      case Fail =>
        if HeadFail(env, t) { HeadFailMatches(env, t, subj, s, fuel); }
        ReachesTrans(g, subj, Run(p, s, k), Run(p + 1, s, k), Failing(k));
      case Ok(m) =>
        if fuel > 0 {
          EvalBounds(env.tab.rules, t, subj, s, fuel);
          GoodExact(g, subj, m, p + 1, p + 1 + |c|, s, k);
          ReachesOne(g, subj, Run(p + 1 + |c|, m, k), Run(p, m, k));
          ReachesTrans(g, subj, Run(p + 1, s, k), Run(p + 1 + |c|, m, k), Run(p, m, k));
          ReachesTrans(g, subj, Run(p, s, k), Run(p + 1, s, k), Run(p, m, k));
          RepTestLoop(env, g, t, opt, fl, subj, p, m, k, fuel - 1);
          GoodPrefix(g, subj, opt, fl, Eval(env.tab.rules, TRep(t), subj, s, fuel), p, s, p, q, m, k);
        }
    }
  }

  /** The loop `L1: <t>; partialcommit L1` under a choice leaves by failing to that choice. */
  lemma {:induction false} RepChoiceLoop(env: Env, g: Program, t: Tree, subj: seq<Byte>, p: int, s: nat, k: Stack, fuel: nat)
    requires k.Choice? && k.s == s && Setting(env, g, TRep(t), false, Full, subj, s, k)
    requires var c := Gen(env, t, false, NoTest, Full);
      CodeAt(g.code, p, c) && p + |c| < |g.code| && g.code[p + |c|] == IPartialCommit(-|c|)
    ensures var r := Eval(env.tab.rules, TRep(t), subj, s, fuel);
      !r.Fail? && (r.Ok? ==> Reaches(g, subj, Run(p, s, k), Failing(k.(s := r.pos))))
    decreases fuel, TRep(t), 1
  {
    hide Env.Valid;
    hide Linked;
    hide Gen, GetFirst, CheckAux, HeadFail;
    var c := Gen(env, t, false, NoTest, Full);
    Simulates(env, g, t, false, NoTest, Full, subj, p, s, k, fuel);
    match Eval(env.tab.rules, t, subj, s, fuel)
    case Out =>
    case Fail => assert k.(s := s) == k;
    case Ok(m) =>
      if fuel > 0 {
        EvalBounds(env.tab.rules, t, subj, s, fuel);
        var k1 := k.(s := m);
        GoodExact(g, subj, m, p, p + |c|, s, k);
        ReachesOne(g, subj, Run(p + |c|, m, k), Run(p, m, k1));
        ReachesTrans(g, subj, Run(p, s, k), Run(p + |c|, m, k), Run(p, m, k1));
        RepChoiceLoop(env, g, t, subj, p, m, k1, fuel - 1);
        var r := Eval(env.tab.rules, TRep(t), subj, m, fuel - 1);
        if r.Ok? {
          assert k1.(s := r.pos) == k.(s := r.pos);
          ReachesTrans(g, subj, Run(p, s, k), Run(p, m, k1), Failing(k.(s := r.pos)));
        }
      }
  }

  lemma RepSkips(env: Env, g: Program, subj: seq<Byte>, t: Tree, opt: bool, fl: Charset, fuel: nat, q: int, s: nat, k: Stack)
    requires opt ==> k.Choice?
    requires !Eval(env.tab.rules, t, subj, s, fuel).Ok?
    ensures Good(g, subj, opt, fl, Eval(env.tab.rules, TRep(t), subj, s, fuel), q, q, s, k)
  {
    ReachesSelf(g, subj, Run(q, s, k));
    GoodEnd(g, subj, opt, fl, q, q, s, s, k);
  }

  /** The code `choice L2; L1: <t>; partialcommit L1; L2:` (or its optional form) without its test. */
  lemma RepPointGood(g: Program, subj: seq<Byte>, opt: bool, fl: Charset, r: Outcome, p: int, q: int, s: nat, k: Stack)
    requires (opt ==> k.Choice?) && !r.Fail?
    requires 0 <= p < |g.code| && g.code[p] == (if opt then IPartialCommit(1) else IChoice(q - p))
    requires var k1 := if opt then k.(s := s) else Choice(q, s, k);
      r.Ok? ==> Reaches(g, subj, Run(p + 1, s, k1), Failing(k1.(s := r.pos)))
    ensures Good(g, subj, opt, fl, r, p, q, s, k)
  {
    var k1 := if opt then k.(s := s) else Choice(q, s, k);
    if r.Ok? {
      assert Step(g, subj, Run(p, s, k)) == Run(p + 1, s, k1);
      ReachesStep(g, subj, Run(p, s, k), Failing(k1.(s := r.pos)));
      if opt {
        assert k1.(s := r.pos) == k.(s := r.pos);
      } else {
        ReachesOne(g, subj, Failing(k1.(s := r.pos)), Run(q, r.pos, k));
        ReachesTrans(g, subj, Run(p, s, k), Failing(k1.(s := r.pos)), Run(q, r.pos, k));
      }
    }
  }

  lemma {:induction false} SimulatesRepChoice(env: Env, g: Program, t: Tree, opt: bool, tt: Test, fl: Charset,
                                              subj: seq<Byte>, p: int, s: nat, k: Stack, fuel: nat)
    requires Setting(env, g, TRep(t), opt, fl, subj, s, k) && !IsCharset(t) && !RepByTest(env, t, fl)
    requires CodeAt(g.code, p, Gen(env, TRep(t), opt, tt, fl))
    ensures Good(g, subj, opt, fl, Eval(env.tab.rules, TRep(t), subj, s, fuel), p, p + |Gen(env, TRep(t), opt, tt, fl)|, s, k)
    decreases fuel, TRep(t), 2, 0
  {
    hide Linked;
    hide Env.Valid;
    hide Eval, Step, Reaches, Good, CodeTest;
    hide CodeAt, Linked;
    hide Gen, GetFirst, CheckAux, HeadFail;
    var f := GetFirst(env, t, Full);
    var c := Gen(env, t, false, NoTest, Full);
    RepShape(env, g.code, t, opt, tt, fl, p);
    var p1 := if f.e then p else p + 1;
    var q := p1 + 2 + |c|;
    var k1 := if opt then k.(s := s) else Choice(q, s, k);
    var r := Eval(env.tab.rules, TRep(t), subj, s, fuel);
    RepChoiceLoop(env, g, t, subj, p1 + 1, s, k1, fuel);
    RepPointGood(g, subj, opt, fl, r, p1, q, s, k);
    if !f.e {
      if !Next(subj, s, f.cs) {
        TestRejects(env, t, subj, s, fuel);
        RepSkips(env, g, subj, t, opt, fl, fuel, q, s, k);
      }
      TestedGood(env, g, subj, t, opt, fl, r, p, q, q, s, k);
    }
  }
}
