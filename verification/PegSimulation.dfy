/**
 * Generated code does what the pattern means. The follow set makes the statement relative:
 * code compiled for follow set `fl` may fail early on a match that ends before a character
 * outside `fl`, because whatever comes next fails there anyway.
 */
module PegSimulation {
  import opened PegSyntax
  import opened PegSemantics
  import opened PegAnalysis
  import opened PegMachine
  import opened PegCodegen

  predicate CodeAt(code: seq<Instr>, p: int, seg: seq<Instr>) {
    0 <= p && p + |seg| <= |code| && code[p..p + |seg|] == seg
  }

  lemma CodeAtSplit(code: seq<Instr>, p: int, a: seq<Instr>, b: seq<Instr>)
    requires CodeAt(code, p, a + b)
    ensures CodeAt(code, p, a) && CodeAt(code, p + |a|, b)
  {
    assert code[p..p + |a|] == (a + b)[..|a|];
    assert code[p + |a|..p + |a + b|] == (a + b)[|a|..];
  }

  lemma CodeAtOne(code: seq<Instr>, p: int, i: Instr)
    requires CodeAt(code, p, [i])
    ensures 0 <= p < |code| && code[p] == i
  {
    assert code[p] == code[p..p + 1][0];
  }

  lemma CodeAtSplit3(code: seq<Instr>, p: int, a: seq<Instr>, b: seq<Instr>, c: seq<Instr>)
    requires CodeAt(code, p, a + b + c)
    ensures CodeAt(code, p, a) && CodeAt(code, p + |a|, b) && CodeAt(code, p + |a| + |b|, c)
  {
    hide CodeAt;
    CodeAtSplit(code, p, a + b, c);
    CodeAtSplit(code, p, a, b);
  }

  lemma CodeAtSplit4(code: seq<Instr>, p: int, a: seq<Instr>, b: seq<Instr>, c: seq<Instr>, d: seq<Instr>)
    requires CodeAt(code, p, a + b + c + d)
    ensures CodeAt(code, p, a) && CodeAt(code, p + |a|, b) && CodeAt(code, p + |a| + |b|, c)
    ensures CodeAt(code, p + |a| + |b| + |c|, d)
  {
    hide CodeAt;
    CodeAtSplit(code, p, a + b + c, d);
    CodeAtSplit3(code, p, a, b, c);
  }

  lemma CodeAtSplit5(code: seq<Instr>, p: int, a: seq<Instr>, b: seq<Instr>, c: seq<Instr>, d: seq<Instr>, e: seq<Instr>)
    requires CodeAt(code, p, a + b + c + d + e)
    ensures CodeAt(code, p, a) && CodeAt(code, p + |a|, b) && CodeAt(code, p + |a| + |b|, c)
    ensures CodeAt(code, p + |a| + |b| + |c|, d) && CodeAt(code, p + |a| + |b| + |c| + |d|, e)
  {
    hide CodeAt;
    CodeAtSplit(code, p, a + b + c + d, e);
    CodeAtSplit4(code, p, a, b, c, d);
  }

  /** The dominating test, if there is one, holds at `s`. */
  predicate TestHolds(tt: Test, subj: seq<Byte>, s: nat) {
    && (tt.Dominated? && tt.test.ITestChar? ==> Next(subj, s, {tt.test.c}))
    && (tt.Dominated? && tt.test.ITestSet? ==> Next(subj, s, tt.test.cs))
  }

  /**
   * The run of code p..q from position `s` with stack `k` realises the result `r`. Inside an
   * optional pattern (`opt`) the top of `k` is the choice of that pattern, and falling back to
   * it with the right position counts as success.
   */
  ghost predicate Good(g: Program, subj: seq<Byte>, opt: bool, fl: Charset, r: Outcome, p: int, q: int, s: nat, k: Stack)
    requires opt ==> k.Choice?
  {
    match r
    case Out => true
    case Fail => Reaches(g, subj, Run(p, s, k), Failing(k))
    case Ok(e) =>
      if opt then
        || (exists x: nat :: Reaches(g, subj, Run(p, s, k), Run(q, e, k.(s := x))))
        || Reaches(g, subj, Run(p, s, k), Failing(k.(s := e)))
      else
        || Reaches(g, subj, Run(p, s, k), Run(q, e, k))
        || (e < |subj| && subj[e] !in fl && Reaches(g, subj, Run(p, s, k), Failing(k)))
  }

  lemma GoodPrefix(g: Program, subj: seq<Byte>, opt: bool, fl: Charset, r: Outcome, p0: int, s0: nat, p: int, q: int, s: nat, k: Stack)
    requires opt ==> k.Choice?
    requires Reaches(g, subj, Run(p0, s0, k), Run(p, s, k))
    requires Good(g, subj, opt, fl, r, p, q, s, k)
    ensures Good(g, subj, opt, fl, r, p0, q, s0, k)
  {
    var a, b := Run(p0, s0, k), Run(p, s, k);
    match r
    case Out =>
    case Fail => ReachesTrans(g, subj, a, b, Failing(k));
    case Ok(e) =>
      if opt {
        if x: nat :| Reaches(g, subj, b, Run(q, e, k.(s := x))) {
          ReachesTrans(g, subj, a, b, Run(q, e, k.(s := x)));
        } else {
          ReachesTrans(g, subj, a, b, Failing(k.(s := e)));
        }
      } else if Reaches(g, subj, b, Run(q, e, k)) {
        ReachesTrans(g, subj, a, b, Run(q, e, k));
      } else {
        ReachesTrans(g, subj, a, b, Failing(k));
      }
  }

  /** Reaching the end of the code with the stack as it was is always good. */
  lemma GoodEnd(g: Program, subj: seq<Byte>, opt: bool, fl: Charset, p: int, q: int, s: nat, e: nat, k: Stack)
    requires opt ==> k.Choice?
    requires Reaches(g, subj, Run(p, s, k), Run(q, e, k))
    ensures Good(g, subj, opt, fl, Ok(e), p, q, s, k)
  {
    if opt { assert k.(s := k.s) == k; }
  }

  /** With the full follow set and no enclosing option the match ends exactly where it should. */
  lemma GoodExact(g: Program, subj: seq<Byte>, e: nat, p: int, q: int, s: nat, k: Stack)
    requires Good(g, subj, false, Full, Ok(e), p, q, s, k)
    ensures Reaches(g, subj, Run(p, s, k), Run(q, e, k))
  {
  }

  lemma TestStep(g: Program, subj: seq<Byte>, cs: Charset, off: int, p: int, s: nat, k: Stack)
    requires 0 <= p < |g.code| && g.code[p] == CodeTest(cs, off)
    ensures Step(g, subj, Run(p, s, k)) == Run(if Next(subj, s, cs) then p + 1 else p + off, s, k)
    ensures Reaches(g, subj, Run(p, s, k), Run(if Next(subj, s, cs) then p + 1 else p + off, s, k))
    ensures Next(subj, s, cs) ==> TestHolds(Dominated(CodeTest(cs, 0)), subj, s)
  {
    ReachesOne(g, subj, Run(p, s, k), Run(if Next(subj, s, cs) then p + 1 else p + off, s, k));
  }

  /** When the test rejects, the pattern it protects fails. */
  lemma TestRejects(env: Env, t: Tree, subj: seq<Byte>, s: nat, fuel: nat)
    requires env.Valid() && s <= |subj|
    requires !GetFirst(env, t, Full).e && !Next(subj, s, GetFirst(env, t, Full).cs)
    ensures !Eval(env.tab.rules, t, subj, s, fuel).Ok?
  {
    FirstSound(env, t, Full, subj, s, fuel);
  }

  // ---------------------------------------------------------------- one construct at a time

  lemma SeqGood(g: Program, subj: seq<Byte>, opt: bool, fl1: Charset, fl: Charset, r1: Outcome, r2: Outcome,
                p: int, m: int, q: int, s: nat, k: Stack)
    requires opt ==> k.Choice? && fl == Full
    requires Good(g, subj, false, fl1, r1, p, m, s, k)
    requires r1.Ok? ==> Good(g, subj, opt, fl, r2, m, q, r1.pos, k)
    // a doomed end of the first part dooms the whole
    requires r1.Ok? && r2.Ok? && r1.pos < |subj| && subj[r1.pos] !in fl1 ==> r2.pos == r1.pos && subj[r1.pos] !in fl
    ensures Good(g, subj, opt, fl, if r1.Ok? then r2 else r1, p, q, s, k)
  {
    if r1.Ok? {
      if Reaches(g, subj, Run(p, s, k), Run(m, r1.pos, k)) {
        GoodPrefix(g, subj, opt, fl, r2, p, s, m, q, r1.pos, k);
      }
    }
  }

  lemma ChoiceTestGood(env: Env, g: Program, subj: seq<Byte>, a: Tree, b: Tree, opt: bool, fl: Charset, fuel: nat,
                       p: int, n1: nat, l1: int, q: int, s: nat, k: Stack)
    requires env.Valid() && s <= |subj| && (opt ==> k.Choice? && fl == Full)
    requires ChoiceByTest(env, a, b, fl)
    requires 0 <= p < |g.code| && g.code[p] == CodeTest(GetFirst(env, a, Full).cs, l1 - p)
    requires p + 1 + n1 == q || (0 <= p + 1 + n1 < |g.code| && g.code[p + 1 + n1] == IJmp(q - (p + 1 + n1)))
    requires Next(subj, s, GetFirst(env, a, Full).cs) ==>
      Good(g, subj, false, fl, Eval(env.tab.rules, a, subj, s, fuel), p + 1, p + 1 + n1, s, k)
    requires Good(g, subj, opt, fl, Eval(env.tab.rules, b, subj, s, fuel), l1, q, s, k)
    ensures Good(g, subj, opt, fl, Eval(env.tab.rules, TChoice(a, b), subj, s, fuel), p, q, s, k)
  {
    hide GetFirst, CheckAux, HeadFail, Env.Valid;
    var ra, rb := Eval(env.tab.rules, a, subj, s, fuel), Eval(env.tab.rules, b, subj, s, fuel);
    var f1 := GetFirst(env, a, Full);
    TestStep(g, subj, f1.cs, l1 - p, p, s, k);
    if HeadFail(env, a) { HeadFailNotEmpty(env, a, Full); }
    if !Next(subj, s, f1.cs) {
      TestRejects(env, a, subj, s, fuel);
      GoodPrefix(g, subj, opt, fl, rb, p, s, l1, q, s, k);
    } else {
      match ra
      case Out =>
      case Ok(e) =>
        if Reaches(g, subj, Run(p + 1, s, k), Run(p + 1 + n1, e, k)) {
          if p + 1 + n1 != q {
            ReachesOne(g, subj, Run(p + 1 + n1, e, k), Run(q, e, k));
            ReachesTrans(g, subj, Run(p + 1, s, k), Run(p + 1 + n1, e, k), Run(q, e, k));
          }
          ReachesTrans(g, subj, Run(p, s, k), Run(p + 1, s, k), Run(q, e, k));
          GoodEnd(g, subj, opt, fl, p, q, s, e, k);
        } else {
          ReachesTrans(g, subj, Run(p, s, k), Run(p + 1, s, k), Failing(k));
        }
      case Fail =>
        if HeadFail(env, a) { HeadFailMatches(env, a, subj, s, fuel); }
        FirstSound(env, b, fl, subj, s, fuel);
        ReachesTrans(g, subj, Run(p, s, k), Run(p + 1, s, k), Failing(k));
    }
  }

  lemma ChoiceReuseGood(env: Env, g: Program, subj: seq<Byte>, a: Tree, fuel: nat, p: int, q: int, s: nat, k: Stack)
    requires k.Choice? && s <= |subj|
    requires 0 <= p < |g.code| && g.code[p] == IPartialCommit(1)
    requires Good(g, subj, true, Full, Eval(env.tab.rules, a, subj, s, fuel), p + 1, q, s, k.(s := s))
    ensures Good(g, subj, true, Full, Eval(env.tab.rules, TChoice(a, TTrue), subj, s, fuel), p, q, s, k)
  {
    var ra := Eval(env.tab.rules, a, subj, s, fuel);
    var k1 := k.(s := s);
    var st := Run(p + 1, s, k1);
    assert Step(g, subj, Run(p, s, k)) == st;
    match ra
    case Out =>
    case Fail => ReachesStep(g, subj, Run(p, s, k), Failing(k1));
    case Ok(e) =>
      if x: nat :| Reaches(g, subj, st, Run(q, e, k1.(s := x))) {
        assert k1.(s := x) == k.(s := x);
        ReachesStep(g, subj, Run(p, s, k), Run(q, e, k.(s := x)));
      } else {
        assert k1.(s := e) == k.(s := e);
        ReachesStep(g, subj, Run(p, s, k), Failing(k.(s := e)));
      }
  }

  /** The code `choice L1; <a>; commit L2; L1: <b>; L2:` without its leading test. */
  lemma ChoicePointGood(env: Env, g: Program, subj: seq<Byte>, a: Tree, b: Tree, opt: bool, fl: Charset, fuel: nat,
                        p: int, l1: int, q: int, s: nat, k: Stack)
    requires s <= |subj| && (opt ==> k.Choice? && fl == Full)
    requires 0 <= p < |g.code| && g.code[p] == IChoice(l1 - p)
    requires 0 <= l1 - 1 < |g.code| && g.code[l1 - 1] == ICommit(q - (l1 - 1))
    requires b.TTrue? ==> l1 == q
    requires Good(g, subj, b.TTrue?, Full, Eval(env.tab.rules, a, subj, s, fuel), p + 1, l1 - 1, s, Choice(l1, s, k))
    requires Good(g, subj, opt, fl, Eval(env.tab.rules, b, subj, s, fuel), l1, q, s, k)
    ensures Good(g, subj, opt, fl, Eval(env.tab.rules, TChoice(a, b), subj, s, fuel), p, q, s, k)
  {
    var ra, rb := Eval(env.tab.rules, a, subj, s, fuel), Eval(env.tab.rules, b, subj, s, fuel);
    var kk := Choice(l1, s, k);
    var st := Run(p + 1, s, kk);
    assert Step(g, subj, Run(p, s, k)) == st;
    match ra
    case Out =>
    case Fail =>
      ReachesOne(g, subj, Failing(kk), Run(l1, s, k));
      ReachesTrans(g, subj, st, Failing(kk), Run(l1, s, k));
      ReachesStep(g, subj, Run(p, s, k), Run(l1, s, k));
      GoodPrefix(g, subj, opt, fl, rb, p, s, l1, q, s, k);
    case Ok(e) =>
      if b.TTrue? {
        if x: nat :| Reaches(g, subj, st, Run(l1 - 1, e, kk.(s := x))) {
          ReachesOne(g, subj, Run(l1 - 1, e, kk.(s := x)), Run(q, e, k));
          ReachesTrans(g, subj, st, Run(l1 - 1, e, kk.(s := x)), Run(q, e, k));
        } else {
          ReachesOne(g, subj, Failing(kk.(s := e)), Run(q, e, k));
          ReachesTrans(g, subj, st, Failing(kk.(s := e)), Run(q, e, k));
        }
      } else {
        GoodExact(g, subj, e, p + 1, l1 - 1, s, kk);
        ReachesOne(g, subj, Run(l1 - 1, e, kk), Run(q, e, k));
        ReachesTrans(g, subj, st, Run(l1 - 1, e, kk), Run(q, e, k));
      }
      ReachesStep(g, subj, Run(p, s, k), Run(q, e, k));
      GoodEnd(g, subj, opt, fl, p, q, s, e, k);
  }

  /** A leading test that jumps to `out`, where the pattern would end up anyway. */
  lemma TestedGood(env: Env, g: Program, subj: seq<Byte>, t: Tree, opt: bool, fl: Charset, r: Outcome,
                   p: int, out: int, q: int, s: nat, k: Stack)
    requires env.Valid() && s <= |subj| && (opt ==> k.Choice?)
    requires 0 <= p < |g.code| && g.code[p] == CodeTest(GetFirst(env, t, Full).cs, out - p)
    requires Next(subj, s, GetFirst(env, t, Full).cs) ==> Good(g, subj, opt, fl, r, p + 1, q, s, k)
    requires !Next(subj, s, GetFirst(env, t, Full).cs) ==> Good(g, subj, opt, fl, r, out, q, s, k)
    ensures Good(g, subj, opt, fl, r, p, q, s, k)
  {
    var cs := GetFirst(env, t, Full).cs;
    TestStep(g, subj, cs, out - p, p, s, k);
    if Next(subj, s, cs) { GoodPrefix(g, subj, opt, fl, r, p, s, p + 1, q, s, k); }
    else { GoodPrefix(g, subj, opt, fl, r, p, s, out, q, s, k); }
  }

  lemma {:induction false} SpanIsRep(rules: seq<Tree>, t: Tree, subj: seq<Byte>, s: nat, fuel: nat)
    requires IsCharset(t) && s <= |subj|
    ensures var r := Eval(rules, TRep(t), subj, s, fuel); r.Out? || r == Ok(Span(subj, s, ToCharset(t)))
    decreases fuel
  {
    var r := Eval(rules, t, subj, s, fuel);
    if r.Ok? && fuel > 0 { SpanIsRep(rules, t, subj, s + 1, fuel - 1); }
  }

  lemma NotTestGood(env: Env, g: Program, subj: seq<Byte>, t: Tree, fuel: nat, fl: Charset, opt: bool, p: int, s: nat, k: Stack)
    requires env.Valid() && s <= |subj| && HeadFail(env, t) && (opt ==> k.Choice?)
    requires 0 <= p && p + 1 < |g.code| && g.code[p] == CodeTest(GetFirst(env, t, Full).cs, 2) && g.code[p + 1] == IFail
    ensures Good(g, subj, opt, fl, Eval(env.tab.rules, TNot(t), subj, s, fuel), p, p + 2, s, k)
  {
    hide GetFirst, CheckAux, HeadFail, Env.Valid;
    TestStep(g, subj, GetFirst(env, t, Full).cs, 2, p, s, k);
    if Eval(env.tab.rules, t, subj, s, fuel) != Out {
      HeadFailExact(env, t, subj, s, fuel);
      if Eval(env.tab.rules, t, subj, s, fuel).Ok? {
        ReachesOne(g, subj, Run(p + 1, s, k), Failing(k));
        ReachesTrans(g, subj, Run(p, s, k), Run(p + 1, s, k), Failing(k));
      } else {
        GoodEnd(g, subj, opt, fl, p, p + 2, s, s, k);
      }
    }
  }

  /** The code `choice L1; <t>; failtwice; L1:`. */
  lemma NotChoiceGood(env: Env, g: Program, subj: seq<Byte>, t: Tree, fuel: nat, fl: Charset, opt: bool, p: int, q: int, s: nat, k: Stack)
    requires s <= |subj| && (opt ==> k.Choice?)
    requires 0 <= p < |g.code| && g.code[p] == IChoice(q - p)
    requires 0 <= q - 1 < |g.code| && g.code[q - 1] == IFailTwice
    requires Good(g, subj, false, Full, Eval(env.tab.rules, t, subj, s, fuel), p + 1, q - 1, s, Choice(q, s, k))
    ensures Good(g, subj, opt, fl, Eval(env.tab.rules, TNot(t), subj, s, fuel), p, q, s, k)
  {
    var kk := Choice(q, s, k);
    var st := Run(p + 1, s, kk);
    assert Step(g, subj, Run(p, s, k)) == st;
    match Eval(env.tab.rules, t, subj, s, fuel)
    case Out =>
    case Ok(e) =>
      GoodExact(g, subj, e, p + 1, q - 1, s, kk);
      ReachesOne(g, subj, Run(q - 1, e, kk), Failing(k));
      ReachesTrans(g, subj, st, Run(q - 1, e, kk), Failing(k));
      ReachesStep(g, subj, Run(p, s, k), Failing(k));
    case Fail =>
      ReachesOne(g, subj, Failing(kk), Run(q, s, k));
      ReachesTrans(g, subj, st, Failing(kk), Run(q, s, k));
      ReachesStep(g, subj, Run(p, s, k), Run(q, s, k));
      GoodEnd(g, subj, opt, fl, p, q, s, s, k);
  }

  /** The code `choice L1; <t>; backcommit L2; L1: fail; L2:`. */
  lemma AndChoiceGood(env: Env, g: Program, subj: seq<Byte>, t: Tree, fuel: nat, fl: Charset, opt: bool, p: int, q: int, s: nat, k: Stack)
    requires s <= |subj| && (opt ==> k.Choice?)
    requires 0 <= p < |g.code| && g.code[p] == IChoice(q - 1 - p)
    requires 0 <= q - 2 && q - 1 < |g.code| && g.code[q - 2] == IBackCommit(2) && g.code[q - 1] == IFail
    requires Good(g, subj, false, Full, Eval(env.tab.rules, t, subj, s, fuel), p + 1, q - 2, s, Choice(q - 1, s, k))
    ensures Good(g, subj, opt, fl, Eval(env.tab.rules, TAnd(t), subj, s, fuel), p, q, s, k)
  {
    var kk := Choice(q - 1, s, k);
    var st := Run(p + 1, s, kk);
    assert Step(g, subj, Run(p, s, k)) == st;
    match Eval(env.tab.rules, t, subj, s, fuel)
    case Out =>
    case Ok(e) =>
      GoodExact(g, subj, e, p + 1, q - 2, s, kk);
      ReachesOne(g, subj, Run(q - 2, e, kk), Run(q, s, k));
      ReachesTrans(g, subj, st, Run(q - 2, e, kk), Run(q, s, k));
      ReachesStep(g, subj, Run(p, s, k), Run(q, s, k));
      GoodEnd(g, subj, opt, fl, p, q, s, s, k);
    case Fail =>
      ReachesOne(g, subj, Failing(kk), Run(q - 1, s, k));
      ReachesOne(g, subj, Run(q - 1, s, k), Failing(k));
      ReachesTrans(g, subj, Failing(kk), Run(q - 1, s, k), Failing(k));
      ReachesTrans(g, subj, st, Failing(kk), Failing(k));
      ReachesStep(g, subj, Run(p, s, k), Failing(k));
  }

  /** The code `<t>; behind n` for a pattern of fixed length n. */
  lemma AndBehindGood(env: Env, g: Program, subj: seq<Byte>, t: Tree, fuel: nat, fl: Charset, opt: bool, p: int, m: int, q: int, s: nat, k: Stack)
    requires s <= |subj| && (opt ==> k.Choice?)
    requires Fixed(env.tab.rules, t) >= 0
    requires if Fixed(env.tab.rules, t) == 0 then q == m
             else q == m + 1 && 0 <= m < |g.code| && g.code[m] == IBehind(Fixed(env.tab.rules, t))
    requires Good(g, subj, false, Full, Eval(env.tab.rules, t, subj, s, fuel), p, m, s, k)
    ensures Good(g, subj, opt, fl, Eval(env.tab.rules, TAnd(t), subj, s, fuel), p, q, s, k)
  {
    FixedLenSound(env.tab.rules, t, AllRules(env.tab.rules), subj, s, fuel);
    match Eval(env.tab.rules, t, subj, s, fuel)
    case Out =>
    case Fail =>
    case Ok(e) =>
      GoodExact(g, subj, e, p, m, s, k);
      if q != m {
        ReachesOne(g, subj, Run(m, e, k), Run(q, s, k));
        ReachesTrans(g, subj, Run(p, s, k), Run(m, e, k), Run(q, s, k));
      }
      GoodEnd(g, subj, opt, fl, p, q, s, s, k);
  }

  lemma BehindGood(env: Env, g: Program, subj: seq<Byte>, t: Tree, n: nat, fuel: nat, fl: Charset, opt: bool, p: int, m: int, q: int, s: nat, k: Stack)
    requires s <= |subj| && (opt ==> k.Choice?)
    requires Fixed(env.tab.rules, t) == n
    requires if n == 0 then p == m else m == p + 1 && 0 <= p < |g.code| && g.code[p] == IBehind(n)
    requires n <= s ==> Good(g, subj, false, Full, Eval(env.tab.rules, t, subj, s - n, fuel), m, q, s - n, k)
    ensures Good(g, subj, opt, fl, Eval(env.tab.rules, TBehind(t, n), subj, s, fuel), p, q, s, k)
  {
    if s < n {
      ReachesOne(g, subj, Run(p, s, k), Failing(k));
    } else {
      if n == 0 { ReachesSelf(g, subj, Run(p, s, k)); } else { ReachesOne(g, subj, Run(p, s, k), Run(m, s - n, k)); }
      FixedLenSound(env.tab.rules, t, AllRules(env.tab.rules), subj, s - n, fuel);
      match Eval(env.tab.rules, t, subj, s - n, fuel)
      case Out =>
      case Fail => ReachesTrans(g, subj, Run(p, s, k), Run(m, s - n, k), Failing(k));
      case Ok(e) =>
        GoodExact(g, subj, e, m, q, s - n, k);
        ReachesTrans(g, subj, Run(p, s, k), Run(m, s - n, k), Run(q, s, k));
        GoodEnd(g, subj, opt, fl, p, q, s, s, k);
    }
  }

  /** A call whose target holds the rule's code followed by a return, coming back to `b`. */
  lemma CallGood(g: Program, subj: seq<Byte>, opt: bool, fl: Charset, r: Outcome, p: int, target: int, len: nat, b: int, q: int, s: nat, k: Stack)
    requires opt ==> k.Choice?
    requires Step(g, subj, Run(p, s, k)) == Run(target, s, Ret(b, k))
    requires 0 <= target && target + len < |g.code| && g.code[target + len] == IRet
    requires b == q || (0 <= b < |g.code| && g.code[b] == IJmp(q - b))
    requires Good(g, subj, false, Full, r, target, target + len, s, Ret(b, k))
    ensures Good(g, subj, opt, fl, r, p, q, s, k)
  {
    var st := Run(target, s, Ret(b, k));
    match r
    case Out =>
    case Fail =>
      ReachesOne(g, subj, Failing(Ret(b, k)), Failing(k));
      ReachesTrans(g, subj, st, Failing(Ret(b, k)), Failing(k));
      ReachesStep(g, subj, Run(p, s, k), Failing(k));
    case Ok(e) =>
      var ret := Run(target + len, e, Ret(b, k));
      GoodExact(g, subj, e, target, target + len, s, Ret(b, k));
      ReachesOne(g, subj, ret, Run(b, e, k));
      if b != q {
        ReachesOne(g, subj, Run(b, e, k), Run(q, e, k));
        ReachesTrans(g, subj, ret, Run(b, e, k), Run(q, e, k));
      }
      ReachesTrans(g, subj, st, ret, Run(q, e, k));
      ReachesStep(g, subj, Run(p, s, k), Run(q, e, k));
      GoodEnd(g, subj, opt, fl, p, q, s, e, k);
  }
}
