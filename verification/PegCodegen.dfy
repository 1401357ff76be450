/**
 * Code generation (3rd/lpeg/lpcode.c, codegen and its helpers) as a function from trees to
 * code. `opt`: the code is the last thing inside an optional pattern, whose choice it may
 * reuse. `tt`: the test that dominates the code. `fl`: first set of what follows.
 */
module PegCodegen {
  import opened PegSyntax
  import opened PegAnalysis
  import opened PegMachine

  datatype Test = NoTest | Dominated(test: Instr)

  datatype SetKind = Empty | Single(c: Byte) | Whole | Other

  lemma SingletonUnique(cs: Charset, a: Byte, b: Byte)
    requires |cs| == 1 && a in cs && b in cs
    ensures a == b
  {
    assert |cs - {a}| == 0;
  }

  function Element(cs: Charset): (c: Byte)
    requires |cs| == 1
    ensures cs == {c}
  {
    assert forall a, b | a in cs && b in cs :: a == b by {
      forall a, b | a in cs && b in cs ensures a == b { SingletonUnique(cs, a, b); }
    }
    var c :| c in cs;
    c
  }

  /** charsettype */
  function Kind(cs: Charset): (k: SetKind)
    ensures k.Empty? <==> cs == {}
    ensures k.Single? ==> cs == {k.c}
    ensures k.Whole? ==> cs == Full
  {
    if cs == {} then Empty
    else if |cs| == 1 then Single(Element(cs))
    else if cs == Full then Whole
    else Other
  }

  function CodeChar(c: Byte, tt: Test): Instr {
    if tt.Dominated? && tt.test.ITestChar? && tt.test.c == c then IAny else IChar(c)
  }

  function CodeCharset(cs: Charset, tt: Test): Instr {
    match Kind(cs)
    case Single(c) => CodeChar(c, tt)
    case Other => if tt.Dominated? && tt.test.ITestSet? && tt.test.cs == cs then IAny else ISet(cs)
    case Whole => IAny
    case Empty => IFail
  }

  /** codetestset for a test that must not accept the empty string, with its final offset. */
  function CodeTest(cs: Charset, off: int): Instr {
    match Kind(cs)
    case Empty => IJmp(off)
    case Whole => ITestAny(off)
    case Single(c) => ITestChar(c, off)
    case Other => ITestSet(cs, off)
  }

  function CodeTestSet(f: First, off: int): seq<Instr> { if f.e then [] else [CodeTest(f.cs, off)] }

  function TestOf(f: First): Test { if f.e then NoTest else Dominated(CodeTest(f.cs, 0)) }

  function Nest(env: Env, t: Tree): nat {
    MinFirstTop(t, |env.tab.rules|);
    |env.tab.rules| - MinFirst(t, |env.tab.rules|)
  }

  /** codechoice and coderep use a test instead of a choice point. */
  predicate ChoiceByTest(env: Env, a: Tree, b: Tree, fl: Charset)
    requires env.Valid()
  {
    var f1 := GetFirst(env, a, Full);
    HeadFail(env, a) || (!f1.e && f1.cs !! GetFirst(env, b, fl).cs)
  }

  predicate RepByTest(env: Env, p: Tree, fl: Charset)
    requires env.Valid()
  {
    var f := GetFirst(env, p, Full);
    HeadFail(env, p) || (!f.e && f.cs !! fl)
  }

  predicate AndByBehind(env: Env, p: Tree) {
    0 <= Fixed(env.tab.rules, p) <= MAXBEHIND
  }

  /** Follow set for the first part of a sequence. */
  function SeqFollow(env: Env, a: Tree, b: Tree, fl: Charset): Charset
    requires env.Valid()
  {
    if NeedFollow(a) then GetFirst(env, b, fl).cs else Full
  }

  function SeqTest(env: Env, a: Tree, tt: Test): Test {
    if Fixed(env.tab.rules, a) != 0 then NoTest else tt
  }

  function Gen(env: Env, t: Tree, opt: bool, tt: Test, fl: Charset): seq<Instr>
    requires env.Valid() && env.tab.GrammarsOk(t)
    decreases Nest(env, t), t, 0
  {
    match t
    case TChar(c) => [CodeChar(c, tt)]
    case TAny => [IAny]
    case TSet(cs) => [CodeCharset(cs, tt)]
    case TTrue => []
    case TFalse => [IFail]
    case TSeq(a, b) =>
      Gen(env, a, false, tt, SeqFollow(env, a, b, fl)) + Gen(env, b, opt, SeqTest(env, a, tt), fl)
    case TChoice(a, b) =>
      var f1 := GetFirst(env, a, Full);
      if ChoiceByTest(env, a, b, fl) then
        var c1 := Gen(env, a, false, Dominated(CodeTest(f1.cs, 0)), fl);
        var c2 := Gen(env, b, opt, NoTest, fl);
        if b.TTrue? then [CodeTest(f1.cs, 1 + |c1|)] + c1 + c2
        else [CodeTest(f1.cs, 2 + |c1|)] + c1 + [IJmp(1 + |c2|)] + c2
      else if opt && b.TTrue? then
        [IPartialCommit(1)] + Gen(env, a, true, NoTest, Full)
      else
        var c1 := Gen(env, a, b.TTrue?, TestOf(f1), Full);
        var c2 := Gen(env, b, opt, NoTest, fl);
        CodeTestSet(f1, 3 + |c1|) + [IChoice(2 + |c1|)] + c1 + [ICommit(1 + |c2|)] + c2
    case TRep(p) =>
      if IsCharset(p) then [ISpan(ToCharset(p))]
      else
        var f := GetFirst(env, p, Full);
        if RepByTest(env, p, fl) then
          var c := Gen(env, p, false, Dominated(CodeTest(f.cs, 0)), Full);
          [CodeTest(f.cs, 2 + |c|)] + c + [IJmp(-(1 + |c|))]
        else
          var c := Gen(env, p, false, NoTest, Full);
          CodeTestSet(f, 3 + |c|) + [if opt then IPartialCommit(1) else IChoice(2 + |c|)]
            + c + [IPartialCommit(-|c|)]
    case TNot(p) =>
      var f := GetFirst(env, p, Full);
      if HeadFail(env, p) then CodeTestSet(f, 2) + [IFail]
      else
        var c := Gen(env, p, false, NoTest, Full);
        CodeTestSet(f, 3 + |c|) + [IChoice(2 + |c|)] + c + [IFailTwice]
    case TAnd(p) =>
      var c := Gen(env, p, false, tt, Full);
      if AndByBehind(env, p) then
        c + (if Fixed(env.tab.rules, p) > 0 then [IBehind(Fixed(env.tab.rules, p))] else [])
      else [IChoice(2 + |c|)] + c + [IBackCommit(2)] + [IFail]
    case TBehind(p, n) =>
      (if n > 0 then [IBehind(n)] else []) + Gen(env, p, false, NoTest, Full)
    case TCall(r) => [IOpenCall(r)]
    case TGrammar(f, c) =>
      var body := GenRules(env, f, c, f);
      [ICall(2), IJmp(1 + |body|)] + body
  }

  /** Code of the rules i..f+c of the grammar f..f+c, each followed by a return. */
  function GenRules(env: Env, f: nat, c: nat, i: nat): seq<Instr>
    requires env.Valid() && env.tab.GrammarsOk(TGrammar(f, c)) && f <= i <= f + c
    decreases |env.tab.rules| - f, TGrammar(f, c), 0, f + c - i
  {
    if i == f + c then []
    else
      assert env.tab.home[i] == f && env.tab.size[i] == c;
      assert env.tab.TreeOk(env.tab.rules[i], f, f + c);
      Gen(env, env.tab.rules[i], false, NoTest, Full) + [IRet] + GenRules(env, f, c, i + 1)
  }

  /** The addresses at which the rules of the grammars inside `t` start when its code is put at p. */
  function Positions(env: Env, t: Tree, opt: bool, tt: Test, fl: Charset, p: int): map<nat, int>
    requires env.Valid() && env.tab.GrammarsOk(t)
    decreases Nest(env, t), t, 0
  {
    match t
    case TSeq(a, b) =>
      var c1 := Gen(env, a, false, tt, SeqFollow(env, a, b, fl));
      Positions(env, a, false, tt, SeqFollow(env, a, b, fl), p)
        + Positions(env, b, opt, SeqTest(env, a, tt), fl, p + |c1|)
    case TChoice(a, b) =>
      var f1 := GetFirst(env, a, Full);
      if ChoiceByTest(env, a, b, fl) then
        var c1 := Gen(env, a, false, Dominated(CodeTest(f1.cs, 0)), fl);
        Positions(env, a, false, Dominated(CodeTest(f1.cs, 0)), fl, p + 1)
          + Positions(env, b, opt, NoTest, fl, p + |c1| + (if b.TTrue? then 1 else 2))
      else if opt && b.TTrue? then
        Positions(env, a, true, NoTest, Full, p + 1)
      else
        var c1 := Gen(env, a, b.TTrue?, TestOf(f1), Full);
        var p1 := if f1.e then p else p + 1;
        Positions(env, a, b.TTrue?, TestOf(f1), Full, p1 + 1)
          + Positions(env, b, opt, NoTest, fl, p1 + 2 + |c1|)
    case TRep(p1) =>
      var f := GetFirst(env, p1, Full);
      if IsCharset(p1) then map[]
      else if RepByTest(env, p1, fl) then Positions(env, p1, false, Dominated(CodeTest(f.cs, 0)), Full, p + 1)
      else Positions(env, p1, false, NoTest, Full, if f.e then p + 1 else p + 2)
    case TNot(p1) =>
      var f := GetFirst(env, p1, Full);
      if HeadFail(env, p1) then map[]
      else Positions(env, p1, false, NoTest, Full, if f.e then p + 1 else p + 2)
    case TAnd(p1) => Positions(env, p1, false, tt, Full, if AndByBehind(env, p1) then p else p + 1)
    case TBehind(p1, n) => Positions(env, p1, false, NoTest, Full, if n > 0 then p + 1 else p)
    case TGrammar(f, c) => RulePositions(env, f, c, f, p + 2)
    case _ => map[]
  }

  function RulePositions(env: Env, f: nat, c: nat, i: nat, p: int): map<nat, int>
    requires env.Valid() && env.tab.GrammarsOk(TGrammar(f, c)) && f <= i <= f + c
    decreases |env.tab.rules| - f, TGrammar(f, c), 0, f + c - i
  {
    if i == f + c then map[]
    else
      assert env.tab.home[i] == f && env.tab.size[i] == c;
      assert env.tab.TreeOk(env.tab.rules[i], f, f + c);
      var c1 := Gen(env, env.tab.rules[i], false, NoTest, Full);
      map[i := p] + Positions(env, env.tab.rules[i], false, NoTest, Full, p) + RulePositions(env, f, c, i + 1, p + |c1| + 1)
  }

  lemma SeqPos(env: Env, a: Tree, b: Tree, opt: bool, tt: Test, fl: Charset, p: int)
    requires env.Valid() && env.tab.GrammarsOk(TSeq(a, b))
    ensures var c1 := Gen(env, a, false, tt, SeqFollow(env, a, b, fl));
      Positions(env, TSeq(a, b), opt, tt, fl, p) == Positions(env, a, false, tt, SeqFollow(env, a, b, fl), p)
        + Positions(env, b, opt, SeqTest(env, a, tt), fl, p + |c1|)
  {
    hide GetFirst, CheckAux, FixedLen, Env.Valid;
  }

  lemma ChoiceTestPos(env: Env, a: Tree, b: Tree, opt: bool, tt: Test, fl: Charset, p: int)
    requires env.Valid() && env.tab.GrammarsOk(TChoice(a, b)) && ChoiceByTest(env, a, b, fl)
    ensures var i := CodeTest(GetFirst(env, a, Full).cs, 0); var c1 := Gen(env, a, false, Dominated(i), fl);
      Positions(env, TChoice(a, b), opt, tt, fl, p) == Positions(env, a, false, Dominated(i), fl, p + 1)
        + Positions(env, b, opt, NoTest, fl, p + |c1| + (if b.TTrue? then 1 else 2))
  {
    hide GetFirst, CheckAux, HeadFail, Env.Valid;
  }

  lemma ChoicePointPos(env: Env, a: Tree, b: Tree, opt: bool, tt: Test, fl: Charset, p: int)
    requires env.Valid() && env.tab.GrammarsOk(TChoice(a, b)) && !ChoiceByTest(env, a, b, fl) && !(opt && b.TTrue?)
    ensures var f1 := GetFirst(env, a, Full); var c1 := Gen(env, a, b.TTrue?, TestOf(f1), Full);
      var p1 := if f1.e then p else p + 1;
      Positions(env, TChoice(a, b), opt, tt, fl, p) == Positions(env, a, b.TTrue?, TestOf(f1), Full, p1 + 1)
        + Positions(env, b, opt, NoTest, fl, p1 + 2 + |c1|)
  {
    hide GetFirst, CheckAux, HeadFail, Env.Valid;
  }

  lemma NotPos(env: Env, t: Tree, opt: bool, tt: Test, fl: Charset, p: int)
    requires env.Valid() && env.tab.GrammarsOk(t)
    ensures Positions(env, TNot(t), opt, tt, fl, p) ==
      if HeadFail(env, t) then map[]
      else Positions(env, t, false, NoTest, Full, if GetFirst(env, t, Full).e then p + 1 else p + 2)
  {
    hide GetFirst, CheckAux, HeadFail, Env.Valid;
  }

  lemma TruePos(env: Env, opt: bool, tt: Test, fl: Charset, p: int)
    requires env.Valid()
    ensures Positions(env, TTrue, opt, tt, fl, p) == map[]
  {
  }

  lemma RepPos(env: Env, t: Tree, opt: bool, tt: Test, fl: Charset, p: int)
    requires env.Valid() && env.tab.GrammarsOk(t)
    ensures var f := GetFirst(env, t, Full);
      Positions(env, TRep(t), opt, tt, fl, p) ==
        if IsCharset(t) then map[]
        else if RepByTest(env, t, fl) then Positions(env, t, false, Dominated(CodeTest(f.cs, 0)), Full, p + 1)
        else Positions(env, t, false, NoTest, Full, if f.e then p + 1 else p + 2)
  {
    hide GetFirst, CheckAux, HeadFail, Env.Valid;
  }

  lemma AndPos(env: Env, t: Tree, opt: bool, tt: Test, fl: Charset, p: int)
    requires env.Valid() && env.tab.GrammarsOk(t)
    ensures Positions(env, TAnd(t), opt, tt, fl, p) ==
      Positions(env, t, false, tt, Full, if AndByBehind(env, t) then p else p + 1)
  {
    hide FixedLen, Env.Valid;
  }
}
