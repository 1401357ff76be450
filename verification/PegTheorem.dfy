/**
 * The main results about LPeg patterns: the compiler produces code on which the machine
 * answers exactly what the pattern means, and the machine's loop computes that answer.
 */
module PegTheorem {
  import opened PegSyntax
  import opened PegSemantics
  import opened PegAnalysis
  import opened PegVerify
  import opened PegMachine
  import opened PegCodegen
  import opened PegSimulation
  import opened PegCorrect
  import opened PegLayout
  import opened PegRewrite
  import opened PegOptimize
  import opened PegCompile

  /** The answer of the machine that stands for an outcome. */
  function AnswerOf(r: Outcome): State
    requires r != Out
  {
    if r.Ok? then Matched(r.pos) else NoMatch
  }

  /** The meaning of `t` at `s` is definite and the code answers it. */
  ghost predicate RealisesAt(code: seq<Instr>, rules: seq<Tree>, t: Tree, subj: seq<Byte>, s: nat) {
    exists r: Outcome :: r != Out && Gives(rules, t, subj, s, r) && Answers(Program(code, map[]), subj, s, AnswerOf(r))
  }

  /** On every subject and from every position the code answers what the pattern means. */
  ghost predicate Realises(code: seq<Instr>, rules: seq<Tree>, t: Tree) {
    forall subj: seq<Byte>, s: nat :: s <= |subj| ==> RealisesAt(code, rules, t, subj, s)
  }

  lemma {:induction false} FinalStays(g: Program, subj: seq<Byte>, st: State, m: nat, n: nat)
    requires m <= n && var u := Steps(g, subj, st, m); u.Matched? || u.NoMatch? || u.Stuck?
    ensures Steps(g, subj, st, n) == Steps(g, subj, st, m)
    decreases n
  {
    if m > 0 { FinalStays(g, subj, Step(g, subj, st), m - 1, n - 1); }
    else if n > 0 { FinalStays(g, subj, Step(g, subj, st), 0, n - 1); }
  }

  /** A program has at most one answer. */
  lemma AnswersUnique(g: Program, subj: seq<Byte>, s: nat, r1: State, r2: State)
    requires Answers(g, subj, s, r1) && Answers(g, subj, s, r2)
    ensures r1 == r2
  {
    var st := Run(0, s, Giveup);
    var m: nat :| Steps(g, subj, st, m) == r1;
    var n: nat :| Steps(g, subj, st, n) == r2;
    if m <= n { FinalStays(g, subj, st, m, n); } else { FinalStays(g, subj, st, n, m); }
  }

  /** If compiled code realises a pattern, its answer is the only meaning of the pattern. */
  lemma RealisedExactly(code: seq<Instr>, rules: seq<Tree>, t: Tree, subj: seq<Byte>, s: nat, r: Outcome)
    requires Realises(code, rules, t) && s <= |subj| && r != Out
    ensures Gives(rules, t, subj, s, r) <==> Answers(Program(code, map[]), subj, s, AnswerOf(r))
  {
    assert RealisesAt(code, rules, t, subj, s);
    var r0: Outcome :| r0 != Out && Gives(rules, t, subj, s, r0) && Answers(Program(code, map[]), subj, s, AnswerOf(r0));
    if Gives(rules, t, subj, s, r) { GivesUnique(rules, t, subj, s, r, r0); }
    if Answers(Program(code, map[]), subj, s, AnswerOf(r)) {
      AnswersUnique(Program(code, map[]), subj, s, AnswerOf(r), AnswerOf(r0));
    }
  }

  /** Without open calls the link map plays no role. */
  lemma {:induction false} LinkIrrelevant(code: seq<Instr>, link: map<nat, int>, subj: seq<Byte>, st: State, n: nat)
    requires NoOpenCalls(code)
    ensures Steps(Program(code, link), subj, st, n) == Steps(Program(code, map[]), subj, st, n)
    decreases n
  {
    if n > 0 {
      assert Step(Program(code, link), subj, st) == Step(Program(code, map[]), subj, st);
      LinkIrrelevant(code, link, subj, Step(Program(code, link), subj, st), n - 1);
    }
  }

  lemma AnswersWithoutLink(code: seq<Instr>, link: map<nat, int>, subj: seq<Byte>, s: nat, r: State)
    requires NoOpenCalls(code) && Answers(Program(code, link), subj, s, r)
    ensures Answers(Program(code, map[]), subj, s, r)
  {
    var n: nat :| Steps(Program(code, link), subj, Run(0, s, Giveup), n) == r;
    LinkIrrelevant(code, link, subj, Run(0, s, Giveup), n);
  }

  /** Generated code, closed by an end instruction, is linked and its jumps are well founded. */
  lemma GeneratedIsSound(env: Env, t: Tree, code: seq<Instr>, link: map<nat, int>) returns (pot: seq<nat>)
    requires env.Valid() && env.tab.TreeOk(t, 0, 0)
    requires code == Gen(env, t, false, NoTest, Full) + [IEnd]
    requires link == Positions(env, t, false, NoTest, Full, 0)
    ensures Linked(env, Program(code, link)) && WellFounded(Program(code, link), pot)
  {
    var c := Gen(env, t, false, NoTest, Full);
    assert code[0..|c|] == c;
    TreeParts(env.tab, t, 0, 0);
    var w := |c|;
    var l := LayOut(env, w, code, t, false, NoTest, Full, 0, 0, 0, 0);
    pot := l.pots + [0];
    assert forall i :: 0 <= i < |c| ==> pot[i] == At(l.pots, 0, i);
    forall i {:trigger code[i]} | 0 <= i < |code|
      ensures code[i].IOpenCall? ==> code[i].rule in link
    {
    }
    LinkedFromLayout(env, w, code, l);
    WellFoundedFromLayout(env, w, code, l, pot);
  }

  lemma LinkedFromLayout(env: Env, w: nat, code: seq<Instr>, l: Layout)
    requires env.Valid() && LayoutOk(env, w, code, 0, l, 0, 0, 0)
    requires |code| == |l.pots| + 1 && code[|l.pots|].IEnd?
    ensures Linked(env, Program(code, l.link))
  {
    hide Env.Valid, RuleCode, CodeAt, SegOk;
  }

  lemma WellFoundedFromLayout(env: Env, w: nat, code: seq<Instr>, l: Layout, pot: seq<nat>)
    requires env.Valid() && LayoutOk(env, w, code, 0, l, 0, 0, 0)
    requires |code| == |l.pots| + 1 && code[|l.pots|].IEnd?
    requires pot == l.pots + [0]
    ensures WellFounded(Program(code, l.link), pot)
  {
    hide Env.Valid, RuleCode, CodeAt, Level;
    forall i {:trigger code[i]} | 0 <= i < |l.pots|
      ensures HasLabel(code[i]) ==> 0 <= i + code[i].off < |code|
      ensures code[i].IJmp? ==> pot[i + code[i].off] < pot[i]
      ensures code[i].IOpenCall? ==> code[i].rule in l.link && pot[l.link[code[i].rule]] < pot[i]
    {
      assert LocalOk(env, w, code, 0, l.pots, 0, i);
      assert 0 + i == i;
      if code[i].IOpenCall? {
        assert RuleAt(env, w, code, 0, l.pots, code[i].rule, l.link[code[i].rule]);
      }
    }
  }

  /** Code before the two optimisation passes already answers what the pattern means. */
  lemma GeneratedAnswers(env: Env, t: Tree, code: seq<Instr>, link: map<nat, int>, subj: seq<Byte>, s: nat, fuel: nat)
    requires Sound(env) && NodesOk(env, t) && env.tab.TreeOk(t, 0, 0) && s <= |subj|
    requires code == Gen(env, t, false, NoTest, Full) + [IEnd] && Linked(env, Program(code, link))
    requires Eval(env.tab.rules, t, subj, s, fuel) != Out
    ensures Answers(Program(code, link), subj, s, AnswerOf(Eval(env.tab.rules, t, subj, s, fuel)))
  {
    var g := Program(code, link);
    var c := Gen(env, t, false, NoTest, Full);
    assert code[0..|c|] == c;
    TreeParts(env.tab, t, 0, 0);
    CallsWiden(t, 0, 0, |env.tab.rules|, env.tab.live);
    hide Gen, Env.Valid, Linked;
    Simulates(env, g, t, false, NoTest, Full, subj, 0, s, Giveup, fuel);
    var start := Run(0, s, Giveup);
    match Eval(env.tab.rules, t, subj, s, fuel)
    case Ok(e) =>
      GoodExact(g, subj, e, 0, |c|, s, Giveup);
      ReachesOne(g, subj, Run(|c|, e, Giveup), Matched(e));
      ReachesTrans(g, subj, start, Run(|c|, e, Giveup), Matched(e));
    case Fail =>
      ReachesOne(g, subj, Failing(Giveup), NoMatch);
      ReachesTrans(g, subj, start, Failing(Giveup), NoMatch);
  }

  lemma RewrittenRealisesAt(tab: Table, nul: seq<bool>, t: Tree, code: seq<Instr>, link: map<nat, int>, final: seq<Instr>,
                            subj: seq<Byte>, s: nat)
    requires PatternOk(tab, nul, t) && FlagKept(tab, nul) && TableClosed(tab) && BehindsClosed(t) && s <= |subj|
    requires Sound(EnvOf(tab, nul)) && NodesOk(EnvOf(tab, nul), t)
    requires code == Gen(EnvOf(tab, nul), t, false, NoTest, Full) + [IEnd]
    requires Linked(EnvOf(tab, nul), Program(code, link))
    requires Preserves(Program(code, link), Program(final, link)) && NoOpenCalls(final)
    ensures RealisesAt(final, tab.rules, t, subj, s)
  {
    hide Gen, Env.Valid, Linked, NodesOk, Sound, BehindsClosed, TableClosed, NoOpenCalls;
    var r := AcceptedTerminates(tab, nul, t, subj, s);
    var fuel: nat :| Eval(tab.rules, t, subj, s, fuel) == r;
    GeneratedAnswers(EnvOf(tab, nul), t, code, link, subj, s, fuel);
    AnswersWithoutLink(final, link, subj, s, AnswerOf(r));
  }

  /** Rewriting that keeps answers keeps the meaning the code realises. */
  lemma RewrittenRealises(tab: Table, nul: seq<bool>, t: Tree, code: seq<Instr>, link: map<nat, int>, final: seq<Instr>)
    requires PatternOk(tab, nul, t) && FlagKept(tab, nul) && TableClosed(tab) && BehindsClosed(t)
    requires Sound(EnvOf(tab, nul)) && NodesOk(EnvOf(tab, nul), t)
    requires code == Gen(EnvOf(tab, nul), t, false, NoTest, Full) + [IEnd]
    requires Linked(EnvOf(tab, nul), Program(code, link))
    requires Preserves(Program(code, link), Program(final, link)) && NoOpenCalls(final)
    ensures Realises(final, tab.rules, t)
  {
    hide Gen, Env.Valid, Linked, PatternOk, NodesOk, Sound, BehindsClosed, TableClosed, NoOpenCalls, Preserves;
    forall subj: seq<Byte>, s: nat ensures s <= |subj| ==> RealisesAt(final, tab.rules, t, subj, s) {
      if s <= |subj| { RewrittenRealisesAt(tab, nul, t, code, link, final, subj, s); }
    }
  }

  /**
   * compile: generate code, close the calls, thread the jumps. The result realises the
   * pattern: same end position or failure, on every subject and from every position.
   */
  method Compile(tab: Table, nul: seq<bool>, t: Tree) returns (code: array<Instr>)
    requires PatternOk(tab, nul, t) && FlagKept(tab, nul) && TableClosed(tab) && BehindsClosed(t)
    ensures fresh(code)
    ensures Realises(code[..], tab.rules, t)
    ensures NoOpenCalls(code[..]) && forall i :: 0 <= i < code.Length ==> Threaded(code[..], i)
  {
    PatternFacts(tab, nul, t);
    hide Gen, Positions, PatternOk, TableClosed, BehindsClosed, Sound, NodesOk, Env.Valid, Preserves, WellFounded, NoOpenCalls, Threaded;
    var env := EnvOf(tab, nul);
    var generated, link := Generate(env, t);
    ghost var pot := GeneratedIsSound(env, t, generated, link);
    code := new Instr[|generated|](i requires 0 <= i < |generated| => generated[i]);
    assert code[..] == generated;
    CorrectCalls(code, link, pot);
    ghost var closed := code[..];
    Peephole(code, link, pot);
    PreservesTrans(Program(generated, link), Program(closed, link), Program(code[..], link));
    RewrittenRealises(tab, nul, t, generated, link, code[..]);
  }

  /** The first half of compile: codegen, and an end. */
  method Generate(env: Env, t: Tree) returns (code: seq<Instr>, link: map<nat, int>)
    requires env.Valid() && env.tab.GrammarsOk(t)
    ensures code == Gen(env, t, false, NoTest, Full) + [IEnd]
    ensures link == Positions(env, t, false, NoTest, Full, 0)
  {
    hide Gen, Positions, Env.Valid;
    var cs := new CompileState();
    cs.Codegen(env, t, false, NOINST, Full);
    var _ := cs.AddInstruction(IEnd);
    code, link := cs.code, cs.positions;
  }

  lemma PatternFacts(tab: Table, nul: seq<bool>, t: Tree)
    requires PatternOk(tab, nul, t) && FlagKept(tab, nul) && TableClosed(tab) && BehindsClosed(t)
    ensures tab.Valid() && |nul| == |tab.rules| && tab.TreeOk(t, 0, 0) && tab.GrammarsOk(t)
    ensures Sound(EnvOf(tab, nul)) && NodesOk(EnvOf(tab, nul), t) && EnvOf(tab, nul).Valid() && EnvOf(tab, nul).tab == tab
  {
    hide Env.Valid, NodesOk;
    AcceptedIsSound(tab, nul);
    LoopFree(tab, nul, t, 0, 0);
  }

  // ---------------------------------------------------------------- the machine's loop

  datatype MatchResult = NoMatchFound | EndsAt(pos: nat)

  function ResultState(r: MatchResult): State {
    match r
    case NoMatchFound => NoMatch
    case EndsAt(e) => Matched(e)
  }

  lemma StepOnce(g: Program, subj: seq<Byte>, st: State, m: nat)
    ensures Steps(g, subj, st, m + 1) == Step(g, subj, Steps(g, subj, st, m))
  {
    StepsAdd(g, subj, st, m, 1);
    assert Steps(g, subj, Steps(g, subj, st, m), 1) == Step(g, subj, Steps(g, subj, st, m));
  }

  /**
   * match: the interpreter loop over the instruction pointer, the subject position and the
   * stack. `bound` witnesses that this run ends.
   */
  method Match(code: seq<Instr>, subj: seq<Byte>, start: nat, ghost bound: nat) returns (r: MatchResult)
    requires var end := Steps(Program(code, map[]), subj, Run(0, start, Giveup), bound); end.Matched? || end.NoMatch?
    ensures Answers(Program(code, map[]), subj, start, ResultState(r))
  {
    ghost var g := Program(code, map[]);
    ghost var st0 := Run(0, start, Giveup);
    ghost var n: nat := 0;
    var p, s: nat, k := 0, start, Giveup;
    while true
      invariant n <= bound && Steps(g, subj, st0, n) == Run(p, s, k)
      decreases bound - n
    {
      Progress(g, subj, st0, n, bound);
      ghost var n0 := n;
      n := n + 1;
      var i := code[p];
      var fail := false;
      match i {
        case IEnd => return EndsAt(s);
        case IRet => p, k := k.p, k.below;
        case IAny => if s < |subj| { p, s := p + 1, s + 1; } else { fail := true; }
        case IChar(c) => if s < |subj| && subj[s] == c { p, s := p + 1, s + 1; } else { fail := true; }
        case ISet(cs) => if s < |subj| && subj[s] in cs { p, s := p + 1, s + 1; } else { fail := true; }
        case ITestAny(off) => p := if s < |subj| then p + 1 else p + off;
        case ITestChar(c, off) => p := if s < |subj| && subj[s] == c then p + 1 else p + off;
        case ITestSet(cs, off) => p := if s < |subj| && subj[s] in cs then p + 1 else p + off;
        case IBehind(m) => if m > s { fail := true; } else { p, s := p + 1, s - m; }
        case ISpan(cs) =>
          ghost var s0 := s;
          while s < |subj| && subj[s] in cs
            invariant Span(subj, s0, cs) == Span(subj, s, cs)
            decreases |subj| - s
          {
            s := s + 1;
          }
          p := p + 1;
        case IJmp(off) => p := p + off;
        case IChoice(off) => p, k := p + 1, Choice(p + off, s, k);
        case ICall(off) => p, k := p + off, Ret(p + 1, k);
        case ICommit(off) => p, k := p + off, k.below;
        case IPartialCommit(off) => p, k := p + off, k.(s := s);
        case IBackCommit(off) => p, s, k := p + off, k.s, k.below;
        case IFailTwice => k := k.below; fail := true;
        case IFail => fail := true;
        case IOpenCall(_) => assert false;
      }
      if fail {
        while k.Ret?   // remove pending calls
          invariant n0 < n <= bound && Steps(g, subj, st0, n) == Failing(k)
          decreases k
        {
          Progress(g, subj, st0, n, bound);
          n := n + 1;
          k := k.below;
        }
        Progress(g, subj, st0, n, bound);
        n := n + 1;
        match k {
          case Giveup => return NoMatchFound;
          case Choice(p1, s1, below) => p, s, k := p1, s1, below;
        }
      }
    }
  }

  /** A run that has not finished is not stuck and takes a step before its bound. */
  lemma Progress(g: Program, subj: seq<Byte>, st0: State, n: nat, bound: nat)
    requires n <= bound && var end := Steps(g, subj, st0, bound); end.Matched? || end.NoMatch?
    requires var st := Steps(g, subj, st0, n); st.Run? || st.Failing?
    ensures n < bound
    ensures Steps(g, subj, st0, n + 1) == Step(g, subj, Steps(g, subj, st0, n))
    ensures !Step(g, subj, Steps(g, subj, st0, n)).Stuck?
  {
    StepOnce(g, subj, st0, n);
    if Steps(g, subj, st0, n + 1).Stuck? { FinalStays(g, subj, st0, n + 1, bound); }
  }

  /** Compiling and then running the machine gives the meaning of the pattern. */
  method CompileAndMatch(tab: Table, nul: seq<bool>, t: Tree, subj: seq<Byte>, s: nat) returns (r: MatchResult)
    requires PatternOk(tab, nul, t) && FlagKept(tab, nul) && TableClosed(tab) && BehindsClosed(t) && s <= |subj|
    ensures Gives(tab.rules, t, subj, s, if r.EndsAt? then Ok(r.pos) else Fail)
  {
    var code := Compile(tab, nul, t);
    hide PatternOk, TableClosed, BehindsClosed;
    assert RealisesAt(code[..], tab.rules, t, subj, s);
    ghost var o: Outcome :| o != Out && Gives(tab.rules, t, subj, s, o) && Answers(Program(code[..], map[]), subj, s, AnswerOf(o));
    ghost var n: nat :| Steps(Program(code[..], map[]), subj, Run(0, s, Giveup), n) == AnswerOf(o);
    r := Match(code[..], subj, s, n);
    AnswersUnique(Program(code[..], map[]), subj, s, AnswerOf(o), ResultState(r));
  }
}
