/**
 * The code generator as the library runs it: it appends instructions to the code under
 * construction and patches labels once their targets are known (3rd/lpeg/lpcode.c). Every
 * method is proved to append exactly the code that `Gen` describes.
 */
module PegCompile {
  import opened PegSyntax
  import opened PegAnalysis
  import opened PegMachine
  import opened PegCodegen
  import opened PegCorrect

  const NOINST: int := -1

  /** The test instruction at index `tt`, if there is one. */
  function TestAt(code: seq<Instr>, tt: int): Test {
    if 0 <= tt < |code| then Dominated(code[tt]) else NoTest
  }

  lemma Patched(pre: seq<Instr>, x: Instr, y: Instr, post: seq<Instr>)
    ensures (pre + [x] + post)[|pre| := y] == pre + [y] + post
  {
  }

  lemma Regroup3(p: seq<Instr>, a: seq<Instr>, b: seq<Instr>, c: seq<Instr>)
    ensures p + a + (b + c) == p + (a + b + c)
  {
  }

  lemma Regroup4(p: seq<Instr>, a: seq<Instr>, b: seq<Instr>, c: seq<Instr>, d: seq<Instr>)
    ensures p + a + (b + (c + d)) == p + (a + b + c + d)
  {
  }

  lemma Regroup5(p: seq<Instr>, a: seq<Instr>, b: seq<Instr>, c: seq<Instr>, d: seq<Instr>, e: seq<Instr>)
    ensures p + a + b + c + d + e == p + (a + b + c + d + e)
  {
  }

  class CompileState {
    var code: seq<Instr>
    var positions: map<nat, int>   // where the code of each rule starts

    constructor ()
      ensures code == [] && positions == map[]
    {
      code, positions := [], map[];
    }

    method AddInstruction(i: Instr) returns (at: int)
      modifies this`code
      ensures code == old(code) + [i] && at == |old(code)|
    {
      at := |code|;
      code := code + [i];
    }

    /** jumptothere */
    method JumpTo(inst: int, target: int)
      requires inst >= 0 ==> inst < |code| && HasLabel(code[inst])
      modifies this`code
      ensures code == if inst >= 0 then old(code)[inst := WithOff(old(code)[inst], target - inst)] else old(code)
    {
      if inst >= 0 {
        code := code[inst := WithOff(code[inst], target - inst)];
      }
    }

    /** jumptohere, for the instruction between `pre` and `post`. */
    method JumpToHere(inst: int, ghost pre: seq<Instr>, ghost x: Instr, ghost post: seq<Instr>)
      requires inst == |pre| && HasLabel(x) && code == pre + [x] + post
      modifies this`code
      ensures code == pre + [WithOff(x, 1 + |post|)] + post
    {
      assert code[inst] == x;
      Patched(pre, x, WithOff(x, 1 + |post|), post);
      JumpTo(inst, |code|);
    }

    /** codetestset */
    method AddTest(f: First) returns (test: int)
      modifies this`code
      ensures code == old(code) + CodeTestSet(f, 0)
      ensures test == if f.e then NOINST else |old(code)|
      ensures TestAt(code, test) == TestOf(f)
    {
      if f.e { return NOINST; }
      test := AddInstruction(CodeTest(f.cs, 0));
    }

    /** jumptohere for a leading test, if there is one. */
    method TestToHere(test: int, f: First, ghost pre: seq<Instr>, ghost rest: seq<Instr>)
      requires test == if f.e then NOINST else |pre|
      requires code == pre + CodeTestSet(f, 0) + rest
      modifies this`code
      ensures code == pre + CodeTestSet(f, 1 + |rest|) + rest
    {
      if test >= 0 { JumpToHere(test, pre, CodeTest(f.cs, 0), rest); }
    }

    method Codegen(env: Env, t: Tree, opt: bool, tt: int, fl: Charset)
      requires env.Valid() && tt < |code| && env.tab.GrammarsOk(t)
      modifies this
      ensures code == old(code) + Gen(env, t, opt, TestAt(old(code), tt), fl)
      ensures positions == old(positions) + Positions(env, t, opt, TestAt(old(code), tt), fl, |old(code)|)
      decreases Nest(env, t), t, 2
    {
      match t
      case TSeq(a, b) => CodeSeq(env, a, b, opt, tt, fl);
      case TChoice(a, b) => CodeChoice(env, a, b, opt, tt, fl);
      case TRep(p) => CodeRep(env, p, opt, tt, fl);
      case TNot(p) => CodeNot(env, p, opt, tt, fl);
      case TAnd(p) => CodeAnd(env, p, opt, tt, fl);
      case TBehind(p, n) =>
        if n > 0 { var _ := AddInstruction(IBehind(n)); }
        Codegen(env, p, false, NOINST, Full);
        assert code == old(code) + ((if n > 0 then [IBehind(n)] else []) + Gen(env, p, false, NoTest, Full));
      case TGrammar(f, c) => CodeGrammar(env, f, c, opt, tt, fl);
      case TCall(r) => var _ := AddInstruction(IOpenCall(r));
      case TTrue =>
      case TFalse => var _ := AddInstruction(IFail);
      case TChar(c) => var _ := AddInstruction(CodeChar(c, TestAt(code, tt)));
      case TSet(cs) => var _ := AddInstruction(CodeCharset(cs, TestAt(code, tt)));
      case TAny => var _ := AddInstruction(IAny);
    }

    method CodeSeq(env: Env, a: Tree, b: Tree, opt: bool, tt: int, fl: Charset)
      requires env.Valid() && tt < |code| && env.tab.GrammarsOk(TSeq(a, b))
      modifies this
      ensures code == old(code) + Gen(env, TSeq(a, b), opt, TestAt(old(code), tt), fl)
      ensures positions == old(positions) + Positions(env, TSeq(a, b), opt, TestAt(old(code), tt), fl, |old(code)|)
      decreases Nest(env, TSeq(a, b)), TSeq(a, b), 1
    {
      hide Gen, GetFirst, CheckAux, HeadFail, FixedLen, Env.Valid, Positions, SeqFollow, SeqTest;
      SeqPos(env, a, b, opt, TestAt(code, tt), fl, |code|);
      SeqDefs(env, a, b, TestAt(code, tt), fl);
      ghost var test := TestAt(code, tt);
      SeqEq(env, a, b, opt, test, fl);
      if NeedFollow(a) {
        Codegen(env, a, false, tt, GetFirst(env, b, fl).cs);
      } else {
        Codegen(env, a, false, tt, Full);
      }
      var tt2 := if Fixed(env.tab.rules, a) != 0 then NOINST else tt;
      assert TestAt(code, tt2) == SeqTest(env, a, test);
      Codegen(env, b, opt, tt2, fl);
    }

    method CodeChoice(env: Env, a: Tree, b: Tree, opt: bool, tt: int, fl: Charset)
      requires env.Valid() && tt < |code| && env.tab.GrammarsOk(TChoice(a, b))
      modifies this
      ensures code == old(code) + Gen(env, TChoice(a, b), opt, TestAt(old(code), tt), fl)
      ensures positions == old(positions) + Positions(env, TChoice(a, b), opt, TestAt(old(code), tt), fl, |old(code)|)
      decreases Nest(env, TChoice(a, b)), TChoice(a, b), 1
    {
      hide Gen, GetFirst, CheckAux, HeadFail, Env.Valid;
      if ChoiceByTest(env, a, b, fl) {
        CodeChoiceTest(env, a, b, opt, tt, fl);
      } else if opt && b.TTrue? {
        ReuseEq(env, a, TestAt(code, tt), fl);
        var _ := AddInstruction(IPartialCommit(1));
        Codegen(env, a, true, NOINST, Full);
      } else {
        CodeChoicePoint(env, a, b, opt, tt, fl);
      }
    }

    /** test L1; <a>; jmp L2; L1: <b>; L2: */
    method CodeChoiceTest(env: Env, a: Tree, b: Tree, opt: bool, tt: int, fl: Charset)
      requires env.Valid() && tt < |code| && env.tab.GrammarsOk(TChoice(a, b)) && ChoiceByTest(env, a, b, fl)
      modifies this
      ensures code == old(code) + Gen(env, TChoice(a, b), opt, TestAt(old(code), tt), fl)
      ensures positions == old(positions) + Positions(env, TChoice(a, b), opt, TestAt(old(code), tt), fl, |old(code)|)
      decreases Nest(env, TChoice(a, b)), TChoice(a, b), 0
    {
      hide Gen, GetFirst, CheckAux, HeadFail, Env.Valid, Positions;
      ChoiceTestPos(env, a, b, opt, TestAt(code, tt), fl, |code|);
      ghost var pre := code;
      ChoiceTestEq(env, a, b, opt, TestAt(code, tt), fl);
      ChoiceTestEq(env, a, b, opt, NoTest, fl);
      var f1 := First(GetFirst(env, a, Full).cs, false);
      ghost var i := CodeTest(f1.cs, 0);
      ghost var c1 := Gen(env, a, false, Dominated(i), fl);
      var jmp := CodeTested(env, a, f1, !b.TTrue?, fl);
      if b.TTrue? {
        Codegen(env, b, opt, NOINST, fl);
        Regroup3(pre, [CodeTest(f1.cs, 1 + |c1|)], c1, []);
      } else {
        ghost var pre2 := pre + [CodeTest(f1.cs, 2 + |c1|)] + c1;
        Codegen(env, b, opt, NOINST, fl);
        ghost var c2 := Gen(env, b, opt, NoTest, fl);
        JumpToHere(jmp, pre2, IJmp(0), c2);
        Regroup4(pre, [CodeTest(f1.cs, 2 + |c1|)], c1, [IJmp(1 + |c2|)], c2);
        Regroup5(pre, [], [CodeTest(f1.cs, 2 + |c1|)], c1, [IJmp(1 + |c2|)], c2);
      }
    }

    /** test L1; <a>; jmp (label open, if wanted); L1: */
    method CodeTested(env: Env, a: Tree, f: First, withJump: bool, fl: Charset) returns (jmp: int)
      requires env.Valid() && env.tab.GrammarsOk(a) && !f.e
      modifies this
      ensures var c1 := Gen(env, a, false, Dominated(CodeTest(f.cs, 0)), fl);
        && code == old(code) + [CodeTest(f.cs, |c1| + if withJump then 2 else 1)] + c1 + (if withJump then [IJmp(0)] else [])
        && positions == old(positions) + Positions(env, a, false, Dominated(CodeTest(f.cs, 0)), fl, |old(code)| + 1)
        && jmp == if withJump then |code| - 1 else NOINST
      decreases Nest(env, a), a, 3
    {
      hide Gen, Positions, GetFirst, CheckAux, HeadFail, Env.Valid;
      ghost var pre := code;
      var test := AddTest(f);
      Codegen(env, a, false, test, fl);
      ghost var tail := Gen(env, a, false, Dominated(CodeTest(f.cs, 0)), fl);
      jmp := NOINST;
      if withJump {
        jmp := AddInstruction(IJmp(0));
        tail := tail + [IJmp(0)];
      }
      assert code == pre + [CodeTest(f.cs, 0)] + tail;
      JumpToHere(test, pre, CodeTest(f.cs, 0), tail);
    }

    /** test L1; choice L1; <a>; commit (label open); L1: */
    method CodeGuarded(env: Env, a: Tree, opt: bool) returns (pcommit: int)
      requires env.Valid() && env.tab.GrammarsOk(a)
      modifies this
      ensures var f1 := GetFirst(env, a, Full); var c1 := Gen(env, a, opt, TestOf(f1), Full);
        && code == old(code) + CodeTestSet(f1, 3 + |c1|) + [IChoice(2 + |c1|)] + c1 + [ICommit(0)]
        && pcommit == |code| - 1
        && positions == old(positions) + Positions(env, a, opt, TestOf(f1), Full, |old(code)| + (if f1.e then 1 else 2))
      decreases Nest(env, a), a, 3
    {
      hide Gen, Positions, GetFirst, CheckAux, HeadFail, Env.Valid;
      ghost var pre := code;
      var f1 := GetFirst(env, a, Full);
      var test := AddTest(f1);
      ghost var pre1 := code;
      var pchoice := AddInstruction(IChoice(0));
      Codegen(env, a, opt, test, Full);
      ghost var c1 := Gen(env, a, opt, TestOf(f1), Full);
      pcommit := AddInstruction(ICommit(0));
      assert code == pre1 + [IChoice(0)] + (c1 + [ICommit(0)]);
      JumpToHere(pchoice, pre1, IChoice(0), c1 + [ICommit(0)]);
      ghost var rest := [IChoice(2 + |c1|)] + (c1 + [ICommit(0)]);
      assert code == pre + CodeTestSet(f1, 0) + rest;
      TestToHere(test, f1, pre, rest);
    }

    /** test L1; choice L1; <a>; commit L2; L1: <b>; L2: */
    method CodeChoicePoint(env: Env, a: Tree, b: Tree, opt: bool, tt: int, fl: Charset)
      requires env.Valid() && tt < |code| && env.tab.GrammarsOk(TChoice(a, b)) && !ChoiceByTest(env, a, b, fl) && !(opt && b.TTrue?)
      modifies this
      ensures code == old(code) + Gen(env, TChoice(a, b), opt, TestAt(old(code), tt), fl)
      ensures positions == old(positions) + Positions(env, TChoice(a, b), opt, TestAt(old(code), tt), fl, |old(code)|)
      decreases Nest(env, TChoice(a, b)), TChoice(a, b), 0
    {
      hide Gen, Positions, GetFirst, CheckAux, HeadFail, Env.Valid;
      ghost var pre := code;
      ChoicePointPos(env, a, b, opt, TestAt(code, tt), fl, |code|);
      ChoicePointEq(env, a, b, opt, TestAt(code, tt), fl);
      var pcommit := CodeGuarded(env, a, b.TTrue?);
      ghost var f1 := GetFirst(env, a, Full);
      ghost var c1 := Gen(env, a, b.TTrue?, TestOf(f1), Full);
      ghost var t := CodeTestSet(f1, 3 + |c1|);
      ghost var pre2 := pre + t + [IChoice(2 + |c1|)] + c1;
      Codegen(env, b, opt, NOINST, fl);
      ghost var c2 := Gen(env, b, opt, NoTest, fl);
      JumpToHere(pcommit, pre2, ICommit(0), c2);
      Regroup5(pre, t, [IChoice(2 + |c1|)], c1, [ICommit(1 + |c2|)], c2);
    }

    method CodeRep(env: Env, p: Tree, opt: bool, tt: int, fl: Charset)
      requires env.Valid() && tt < |code| && env.tab.GrammarsOk(p)
      modifies this
      ensures code == old(code) + Gen(env, TRep(p), opt, TestAt(old(code), tt), fl)
      ensures positions == old(positions) + Positions(env, TRep(p), opt, TestAt(old(code), tt), fl, |old(code)|)
      decreases Nest(env, TRep(p)), TRep(p), 1
    {
      hide Gen, GetFirst, CheckAux, HeadFail, Env.Valid, Positions;
      RepPos(env, p, opt, TestAt(code, tt), fl, |code|);
      ghost var pre := code;
      RepEq(env, p, opt, TestAt(code, tt), fl);
      if IsCharset(p) {
        var _ := AddInstruction(ISpan(ToCharset(p)));
      } else if RepByTest(env, p, fl) {
        CodeRepTest(env, p);
      } else {
        CodeRepChoice(env, p, opt, tt, fl);
      }
    }

    /** L1: test L2; <p>; jmp L1; L2: */
    method CodeRepTest(env: Env, p: Tree)
      requires env.Valid() && env.tab.GrammarsOk(p)
      modifies this
      ensures var f := First(GetFirst(env, p, Full).cs, false); var c := Gen(env, p, false, Dominated(CodeTest(f.cs, 0)), Full);
        && code == old(code) + ([CodeTest(f.cs, 2 + |c|)] + c + [IJmp(-(1 + |c|))])
        && positions == old(positions) + Positions(env, p, false, Dominated(CodeTest(f.cs, 0)), Full, |old(code)| + 1)
      decreases Nest(env, p), p, 3
    {
      hide Gen, GetFirst, CheckAux, HeadFail, Env.Valid, Positions;
      ghost var pre := code;
      var f := First(GetFirst(env, p, Full).cs, false);
      var i := CodeTest(f.cs, 0);
      var test := AddTest(f);
      Codegen(env, p, false, test, Full);
      ghost var c := Gen(env, p, false, Dominated(i), Full);
      AddBackJump(test, 1 + |c|);
      ghost var tail := c + [IJmp(-(1 + |c|))];
      assert code == pre + [i] + tail;
      JumpToHere(test, pre, i, tail);
      Regroup3(pre, [CodeTest(f.cs, 2 + |c|)], c, [IJmp(-(1 + |c|))]);
    }

    /** jmp back to `target` */
    method AddBackJump(target: nat, ghost len: int)
      requires target + len == |code|
      modifies this`code
      ensures code == old(code) + [IJmp(-len)]
    {
      ghost var pre := code;
      var jmp := AddInstruction(IJmp(0));
      assert code == pre + [IJmp(0)] + [];
      Patched(pre, IJmp(0), IJmp(target - jmp), []);
      JumpTo(jmp, target);
    }

    /** test L2; choice L2 (or partialcommit L1); L1: <p>; partialcommit L1; L2: */
    method CodeRepChoice(env: Env, p: Tree, opt: bool, tt: int, fl: Charset)
      requires env.Valid() && tt < |code| && env.tab.GrammarsOk(p) && !IsCharset(p) && !RepByTest(env, p, fl)
      modifies this
      ensures code == old(code) + Gen(env, TRep(p), opt, TestAt(old(code), tt), fl)
      ensures positions == old(positions) + Positions(env, TRep(p), opt, TestAt(old(code), tt), fl, |old(code)|)
      decreases Nest(env, TRep(p)), TRep(p), 0
    {
      hide Gen, GetFirst, CheckAux, HeadFail, Env.Valid, Positions;
      RepPos(env, p, opt, TestAt(code, tt), fl, |code|);
      ghost var pre := code;
      RepEq(env, p, opt, TestAt(code, tt), fl);
      var f := GetFirst(env, p, Full);
      var test := AddTest(f);
      CodeLoop(env, p, opt);
      ghost var c := Gen(env, p, false, NoTest, Full);
      ghost var j := if opt then IPartialCommit(1) else IChoice(2 + |c|);
      ghost var loop := [j] + c + [IPartialCommit(-|c|)];
      assert code == pre + CodeTestSet(f, 0) + loop;
      TestToHere(test, f, pre, loop);
      assert loop == [j] + (c + [IPartialCommit(-|c|)]);
      Regroup4(pre, CodeTestSet(f, 3 + |c|), [j], c, [IPartialCommit(-|c|)]);
    }

    /** choice L2 (or partialcommit L1); L1: <p>; partialcommit L1; L2: */
    method CodeLoop(env: Env, p: Tree, opt: bool)
      requires env.Valid() && env.tab.GrammarsOk(p)
      modifies this
      ensures var c := Gen(env, p, false, NoTest, Full);
        && code == old(code) + ([if opt then IPartialCommit(1) else IChoice(2 + |c|)] + c + [IPartialCommit(-|c|)])
        && positions == old(positions) + Positions(env, p, false, NoTest, Full, |old(code)| + 1)
      decreases Nest(env, p), p, 3
    {
      hide Gen, GetFirst, CheckAux, HeadFail, Env.Valid, Positions;
      ghost var pre := code;
      var i := if opt then IPartialCommit(1) else IChoice(0);
      var pchoice := AddInstruction(i);
      var l2 := |code|;
      Codegen(env, p, false, NOINST, Full);
      ghost var c := Gen(env, p, false, NoTest, Full);
      AddBackCommit(l2, |c|);
      ghost var tail := c + [IPartialCommit(-|c|)];
      assert code == pre + [i] + tail;
      ghost var j := if opt then i else IChoice(2 + |c|);
      if !opt { JumpToHere(pchoice, pre, i, tail); }
      assert pre + [j] + tail == pre + ([j] + c + [IPartialCommit(-|c|)]);
    }

    /** partialcommit back to `target` */
    method AddBackCommit(target: nat, ghost len: int)
      requires target + len == |code|
      modifies this`code
      ensures code == old(code) + [IPartialCommit(-len)]
    {
      ghost var pre := code;
      var commit := AddInstruction(IPartialCommit(0));
      assert code == pre + [IPartialCommit(0)] + [];
      Patched(pre, IPartialCommit(0), IPartialCommit(target - commit), []);
      JumpTo(commit, target);
    }

    method CodeNot(env: Env, p: Tree, opt: bool, tt: int, fl: Charset)
      requires env.Valid() && tt < |code| && env.tab.GrammarsOk(p)
      modifies this
      ensures code == old(code) + Gen(env, TNot(p), opt, TestAt(old(code), tt), fl)
      ensures positions == old(positions) + Positions(env, TNot(p), opt, TestAt(old(code), tt), fl, |old(code)|)
      decreases Nest(env, TNot(p)), TNot(p), 1
    {
      hide Gen, GetFirst, CheckAux, HeadFail, Env.Valid, Positions;
      NotPos(env, p, opt, TestAt(code, tt), fl, |code|);
      ghost var pre := code;
      NotEq(env, p, opt, TestAt(code, tt), fl);
      var f := GetFirst(env, p, Full);
      var test := AddTest(f);
      ghost var t0 := code[|pre|..];
      ghost var rest;
      if HeadFail(env, p) {
        var _ := AddInstruction(IFail);
        rest := [IFail];
        assert code == pre + t0 + rest;
      } else {
        ghost var pre1 := pre + t0;
        var pchoice := AddInstruction(IChoice(0));
        Codegen(env, p, false, NOINST, Full);
        ghost var c := Gen(env, p, false, NoTest, Full);
        var _ := AddInstruction(IFailTwice);
        assert code == pre1 + [IChoice(0)] + (c + [IFailTwice]);
        JumpToHere(pchoice, pre1, IChoice(0), c + [IFailTwice]);
        rest := [IChoice(2 + |c|)] + c + [IFailTwice];
        assert code == pre + t0 + rest;
      }
      TestToHere(test, f, pre, rest);
      assert code == pre + (CodeTestSet(f, 1 + |rest|) + rest);
    }

    method CodeAnd(env: Env, p: Tree, opt: bool, tt: int, fl: Charset)
      requires env.Valid() && tt < |code| && env.tab.GrammarsOk(p)
      modifies this
      ensures code == old(code) + Gen(env, TAnd(p), opt, TestAt(old(code), tt), fl)
      ensures positions == old(positions) + Positions(env, TAnd(p), opt, TestAt(old(code), tt), fl, |old(code)|)
      decreases Nest(env, TAnd(p)), TAnd(p), 1
    {
      hide Gen, GetFirst, CheckAux, HeadFail, FixedLen, Env.Valid, Positions;
      AndPos(env, p, opt, TestAt(code, tt), fl, |code|);
      ghost var pre := code;
      AndEq(env, p, opt, TestAt(code, tt), fl);
      var n := Fixed(env.tab.rules, p);
      if AndByBehind(env, p) {
        Codegen(env, p, false, tt, Full);
        if n > 0 { var _ := AddInstruction(IBehind(n)); }
      } else {
        var pchoice := AddInstruction(IChoice(0));
        Codegen(env, p, false, tt, Full);
        ghost var c := Gen(env, p, false, TestAt(pre, tt), Full);
        var pcommit := AddInstruction(IBackCommit(0));
        assert code == pre + [IChoice(0)] + (c + [IBackCommit(0)]);
        JumpToHere(pchoice, pre, IChoice(0), c + [IBackCommit(0)]);
        var _ := AddInstruction(IFail);
        ghost var pre2 := pre + [IChoice(2 + |c|)] + c;
        assert code == pre2 + [IBackCommit(0)] + [IFail];
        JumpToHere(pcommit, pre2, IBackCommit(0), [IFail]);
        assert code == pre + ([IChoice(2 + |c|)] + c + [IBackCommit(2)] + [IFail]);
      }
    }

    /** One rule of a grammar: note its position, code it, add a return. */
    method CodeRule(env: Env, f: nat, c: nat, i: nat)
      requires env.Valid() && env.tab.GrammarsOk(TGrammar(f, c)) && f <= i < f + c && i < |env.tab.rules|
      modifies this
      ensures code + GenRules(env, f, c, i + 1) == old(code) + GenRules(env, f, c, i)
      ensures positions + RulePositions(env, f, c, i + 1, |code|) == old(positions) + RulePositions(env, f, c, i, |old(code)|)
      ensures |code| >= |old(code)|
      decreases Nest(env, TGrammar(f, c)), TGrammar(f, c), 0
    {
      hide Gen, GenRules, Positions, RulePositions, Env.Valid;
      var t := env.tab.rules[i];
      RulesShape(env, f, c, i);
      RulePositionsStep(env, f, c, i, |code|);
      positions := positions[i := |code|];
      Codegen(env, t, false, NOINST, Full);
      var _ := AddInstruction(IRet);
    }

    /** call L1; jmp L2; L1: <rules>; L2: */
    method CodeGrammar(env: Env, f: nat, c: nat, opt: bool, tt: int, fl: Charset)
      requires env.Valid() && tt < |code| && env.tab.GrammarsOk(TGrammar(f, c))
      modifies this
      ensures code == old(code) + Gen(env, TGrammar(f, c), opt, TestAt(old(code), tt), fl)
      ensures positions == old(positions) + Positions(env, TGrammar(f, c), opt, TestAt(old(code), tt), fl, |old(code)|)
      decreases Nest(env, TGrammar(f, c)), TGrammar(f, c), 1
    {
      hide Gen, GenRules, Positions, RulePositions, Env.Valid;
      ghost var pre := code;
      ghost var body := GenRules(env, f, c, f);
      GrammarEq(env, f, c, opt, TestAt(code, tt), fl, |code|);
      env.tab.GroupFacts(f, c);
      var firstcall := AddInstruction(ICall(0));
      var jumptoend := AddInstruction(IJmp(0));
      assert code == pre + [ICall(0)] + [IJmp(0)];
      JumpToHere(firstcall, pre, ICall(0), [IJmp(0)]);
      for i := f to f + c
        invariant code + GenRules(env, f, c, i) == pre + [ICall(2)] + [IJmp(0)] + body
        invariant positions + RulePositions(env, f, c, i, |code|) == old(positions) + RulePositions(env, f, c, f, |pre| + 2)
        invariant |code| >= |pre| + 2
      {
        CodeRule(env, f, c, i);
      }
      NoRules(env, f, c, |code|);
      assert code + [] == code;
      assert code == (pre + [ICall(2)]) + [IJmp(0)] + body;
      JumpToHere(jumptoend, pre + [ICall(2)], IJmp(0), body);
      assert code == pre + ([ICall(2), IJmp(1 + |body|)] + body);
      assert positions + map[] == positions;
    }
  }

  lemma GrammarEq(env: Env, f: nat, c: nat, opt: bool, tt: Test, fl: Charset, p: int)
    requires env.Valid() && env.tab.GrammarsOk(TGrammar(f, c))
    ensures var body := GenRules(env, f, c, f); Gen(env, TGrammar(f, c), opt, tt, fl) == [ICall(2), IJmp(1 + |body|)] + body
    ensures Positions(env, TGrammar(f, c), opt, tt, fl, p) == RulePositions(env, f, c, f, p + 2)
  {
  }

  lemma SeqDefs(env: Env, a: Tree, b: Tree, tt: Test, fl: Charset)
    requires env.Valid()
    ensures SeqFollow(env, a, b, fl) == if NeedFollow(a) then GetFirst(env, b, fl).cs else Full
    ensures SeqTest(env, a, tt) == if Fixed(env.tab.rules, a) != 0 then NoTest else tt
  {
  }

  lemma ReuseEq(env: Env, a: Tree, tt: Test, fl: Charset)
    requires env.Valid() && env.tab.GrammarsOk(a) && !ChoiceByTest(env, a, TTrue, fl)
    ensures Gen(env, TChoice(a, TTrue), true, tt, fl) == [IPartialCommit(1)] + Gen(env, a, true, NoTest, Full)
  {
  }

  lemma NoRules(env: Env, f: nat, c: nat, p: int)
    requires env.Valid() && env.tab.GrammarsOk(TGrammar(f, c))
    ensures GenRules(env, f, c, f + c) == [] && RulePositions(env, f, c, f + c, p) == map[]
  {
  }

  lemma RulesShape(env: Env, f: nat, c: nat, i: nat)
    requires env.Valid() && env.tab.GrammarsOk(TGrammar(f, c)) && f <= i < f + c && i < |env.tab.rules|
    ensures env.tab.GrammarsOk(env.tab.rules[i])
    ensures Nest(env, env.tab.rules[i]) < Nest(env, TGrammar(f, c))
    ensures GenRules(env, f, c, i) == RuleCode(env, i) + GenRules(env, f, c, i + 1)
  {
    env.tab.GroupFacts(f, c);
    assert env.tab.TreeOk(env.tab.rules[i], env.tab.home[i], env.tab.home[i] + env.tab.size[i]);
  }

  lemma RulePositionsStep(env: Env, f: nat, c: nat, i: nat, p: int)
    requires env.Valid() && env.tab.GrammarsOk(TGrammar(f, c)) && f <= i < f + c && i < |env.tab.rules|
    requires env.tab.GrammarsOk(env.tab.rules[i])
    ensures RulePositions(env, f, c, i, p) == map[i := p] + Positions(env, env.tab.rules[i], false, NoTest, Full, p)
      + RulePositions(env, f, c, i + 1, p + |RuleCode(env, i)|)
  {
  }
}
