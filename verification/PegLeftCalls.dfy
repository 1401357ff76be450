/**
 * What verifyrule (3rd/lpeg/lptree.c) sees of left calls. At a nested grammar it answers with the
 * grammar's nullability and drops the flag it was given, so that a sequence may end too early for
 * it and a left call behind it goes unseen. With the flag kept the check finds exactly the left
 * recursive grammars; as it is, it lets some of them pass.
 */
module PegLeftCalls {
  import opened PegSyntax
  import opened PegSemantics
  import opened PegAnalysis
  import opened PegVerify
  import opened PegMachine
  import opened PegCodegen
  import opened PegOptimize

  // ---------------------------------------------------------------- the lost flag

  /** The run of verifyrule comes to a nested grammar that is not nullable, with the flag set. */
  predicate Drops(rules: seq<Tree>, nul: seq<bool>, t: Tree, left: nat, nb: bool)
    decreases left, t
  {
    match t
    case TNot(p) => Drops(rules, nul, p, left, true)
    case TAnd(p) => Drops(rules, nul, p, left, true)
    case TRep(p) => Drops(rules, nul, p, left, true)
    case TCall(r) => left > 0 && r < |rules| && Drops(rules, nul, rules[r], left - 1, nb)
    case TSeq(a, b) =>
      || Drops(rules, nul, a, left, false)
      || (VerifyRule(rules, nul, a, left, false, false) == Passed(true) && Drops(rules, nul, b, left, nb))
    case TChoice(a, b) =>
      || Drops(rules, nul, a, left, nb)
      || (var v := VerifyRule(rules, nul, a, left, nb, false); v.Passed? && Drops(rules, nul, b, left, v.nb))
    case TGrammar(f, _) => nb && !(f < |nul| && nul[f])
    case _ => false
  }

  /** A run that never comes there is the same with the flag kept. */
  lemma {:induction false} SameVerdict(rules: seq<Tree>, nul: seq<bool>, t: Tree, left: nat, nb: bool)
    requires !Drops(rules, nul, t, left, nb)
    ensures VerifyRule(rules, nul, t, left, nb, true) == VerifyRule(rules, nul, t, left, nb, false)
    decreases left, t
  {
    match t
    case TNot(p) => SameVerdict(rules, nul, p, left, true);
    case TAnd(p) => SameVerdict(rules, nul, p, left, true);
    case TRep(p) => SameVerdict(rules, nul, p, left, true);
    case TCall(r) => if left > 0 && r < |rules| { SameVerdict(rules, nul, rules[r], left - 1, nb); }
    case TSeq(a, b) =>
      SameVerdict(rules, nul, a, left, false);
      if VerifyRule(rules, nul, a, left, false, false) == Passed(true) { SameVerdict(rules, nul, b, left, nb); }
    case TChoice(a, b) =>
      SameVerdict(rules, nul, a, left, nb);
      var v := VerifyRule(rules, nul, a, left, nb, false);
      if v.Passed? { SameVerdict(rules, nul, b, left, v.nb); }
    case _ =>
  }

  /** Keeping the flag only makes the check stricter. */
  lemma {:induction false} KeptIsStricter(rules: seq<Tree>, nul: seq<bool>, t: Tree, left: nat, nb: bool, nb2: bool)
    requires VerifyRule(rules, nul, t, left, nb, true).Passed? && (nb2 ==> nb)
    ensures var v := VerifyRule(rules, nul, t, left, nb2, false);
      v.Passed? && (v.nb ==> VerifyRule(rules, nul, t, left, nb, true).nb)
    decreases left, t
  {
    match t
    case TNot(p) => KeptIsStricter(rules, nul, p, left, true, true);
    case TAnd(p) => KeptIsStricter(rules, nul, p, left, true, true);
    case TRep(p) => KeptIsStricter(rules, nul, p, left, true, true);
    case TCall(r) => KeptIsStricter(rules, nul, rules[r], left - 1, nb, nb2);
    case TSeq(a, b) =>
      KeptIsStricter(rules, nul, a, left, false, false);
      if VerifyRule(rules, nul, a, left, false, true).nb {
        AccumulatorOnly(rules, nul, b, left, nb);
        KeptIsStricter(rules, nul, b, left, nb, nb2);
      }
    case TChoice(a, b) =>
      KeptIsStricter(rules, nul, a, left, nb, nb2);
      KeptIsStricter(rules, nul, b, left, VerifyRule(rules, nul, a, left, nb, true).nb, VerifyRule(rules, nul, a, left, nb2, false).nb);
    case _ =>
  }

  /** No rule's run loses the flag. */
  predicate NeverDrops(tab: Table, nul: seq<bool>) {
    forall r {:trigger tab.rules[r]} :: 0 <= r < |tab.rules| && r in tab.live ==> !Drops(tab.rules, nul, tab.rules[r], MAXRULES, false)
  }

  /** The guard a caller can check: the flag is never set when a nested grammar that must consume is reached. */
  lemma NothingLost(tab: Table, nul: seq<bool>)
    requires Accepts(tab, nul) && NeverDrops(tab, nul)
    ensures FlagKept(tab, nul)
  {
    forall r {:trigger tab.rules[r]} | 0 <= r < |tab.rules| && r in tab.live
      ensures VerifyRule(tab.rules, nul, tab.rules[r], MAXRULES, false, true).Passed?
    {
      SameVerdict(tab.rules, nul, tab.rules[r], MAXRULES, false);
    }
  }

  // ---------------------------------------------------------------- left recursion, exactly

  /** The rules of a group with a rank below m. */
  function Below(rank: seq<nat>, lo: nat, hi: nat, m: nat): set<nat>
    requires hi <= |rank|
  {
    set q: nat | lo <= q < hi && rank[q] < m
  }

  lemma {:induction false} IntervalSize(s: set<nat>, lo: nat, hi: nat)
    requires lo <= hi && forall q :: q in s ==> lo <= q < hi
    ensures |s| <= hi - lo
    decreases hi - lo
  {
    if lo == hi {
      assert s == {};
    } else {
      IntervalSize(s - {lo}, lo + 1, hi);
      assert |s| <= |s - {lo}| + 1 by {
        if lo in s { assert s == (s - {lo}) + {lo}; } else { assert s - {lo} == s; }
      }
    }
  }

  lemma BelowSize(rank: seq<nat>, lo: nat, hi: nat, m: nat)
    requires lo <= hi <= |rank|
    ensures |Below(rank, lo, hi, m)| <= hi - lo
  {
    IntervalSize(Below(rank, lo, hi, m), lo, hi);
  }

  lemma FewerBelow(rank: seq<nat>, lo: nat, hi: nat, m: nat, r: nat)
    requires hi <= |rank| && lo <= r < hi && rank[r] < m
    ensures |Below(rank, lo, hi, rank[r])| < |Below(rank, lo, hi, m)|
  {
    var a, b := Below(rank, lo, hi, rank[r]), Below(rank, lo, hi, m);
    assert a <= b - {r};
    Smaller(a, b - {r});
  }

  lemma {:induction false} Smaller(a: set<nat>, b: set<nat>)
    requires a <= b
    ensures |a| <= |b|
    decreases |a|
  {
    if a != {} {
      var x :| x in a;
      Smaller(a - {x}, b - {x});
    }
  }

  /** A walk along ranked left calls enters each rule once at most, so the bound is never met. */
  lemma {:induction false} RankedIsKept(tab: Table, nul: seq<bool>, rank: seq<nat>, t: Tree, left: nat, lo: nat, hi: nat, m: nat, nb: bool)
    requires tab.Valid() && NulOk(tab, nul) && Env(tab, FinalNul(tab, nul), rank).Valid() && tab.TreeOk(t, lo, hi)
    requires forall i :: lo <= i < hi ==> tab.home[i] == lo && tab.size[i] == hi - lo
    requires LeftRank(FinalNul(tab, nul), rank, t) <= m && |Below(rank, lo, hi, m)| <= left
    ensures VerifyRule(tab.rules, nul, t, left, nb, true).Passed?
    decreases left, t
  {
    hide Env.Valid, Table.Valid, FinalNul;
    match t
    case TNot(p) => RankedIsKept(tab, nul, rank, p, left, lo, hi, m, true);
    case TAnd(p) => RankedIsKept(tab, nul, rank, p, left, lo, hi, m, true);
    case TRep(p) => RankedIsKept(tab, nul, rank, p, left, lo, hi, m, true);
    case TCall(r) =>
      RuleFacts(tab, nul, rank, r);
      FewerBelow(rank, lo, hi, m, r);
      RankedIsKept(tab, nul, rank, tab.rules[r], left - 1, lo, hi, rank[r], nb);
    case TSeq(a, b) =>
      RankedIsKept(tab, nul, rank, a, left, lo, hi, m, false);
      VerdictIsNullable(tab, nul, a, left, lo, hi);
      FinalAgrees(tab, nul, a, lo, hi);
      if NullableIn(nul, a) { RankedIsKept(tab, nul, rank, b, left, lo, hi, m, nb); }
    case TChoice(a, b) =>
      RankedIsKept(tab, nul, rank, a, left, lo, hi, m, nb);
      RankedIsKept(tab, nul, rank, b, left, lo, hi, m, VerifyRule(tab.rules, nul, a, left, nb, true).nb);
    case _ =>
  }

  lemma RuleFacts(tab: Table, nul: seq<bool>, rank: seq<nat>, r: nat)
    requires tab.Valid() && |nul| == |tab.rules| && Env(tab, FinalNul(tab, nul), rank).Valid() && r < |tab.rules|
    ensures |rank| == |tab.rules| == |tab.home| == |tab.size| && LeftRank(FinalNul(tab, nul), rank, tab.rules[r]) <= rank[r]
    ensures tab.TreeOk(tab.rules[r], tab.home[r], tab.home[r] + tab.size[r])
  {
  }

  /** No left recursion: left calls can be ranked. */
  ghost predicate Ranked(tab: Table, nul: seq<bool>)
    requires tab.Valid() && |nul| == |tab.rules|
  {
    exists rank: seq<nat> :: Env(tab, FinalNul(tab, nul), rank).Valid()
  }

  /** With the flag kept verifyrule passes all rules exactly when there is no left recursion. */
  lemma KeptIsExact(tab: Table, nul: seq<bool>)
    requires tab.Valid() && GroupsOk(tab) && NulOk(tab, nul) && TableClosed(tab)
    requires forall r :: 0 <= r < |tab.size| ==> tab.size[r] <= MAXRULES
    ensures FlagKept(tab, nul) <==> Ranked(tab, nul)
  {
    if FlagKept(tab, nul) {
      AcceptedIsRanked(tab, nul);
      assert Env(tab, FinalNul(tab, nul), FinalRank(tab, nul)).Valid();
    }
    if Ranked(tab, nul) { RankedPasses(tab, nul); }
  }

  lemma RankedPasses(tab: Table, nul: seq<bool>)
    requires tab.Valid() && GroupsOk(tab) && NulOk(tab, nul) && Ranked(tab, nul)
    requires forall r :: 0 <= r < |tab.size| ==> tab.size[r] <= MAXRULES
    ensures FlagKept(tab, nul)
  {
    hide Env.Valid, VerifyRule, LeftRank, FinalNul, GroupsOk;
    var rank: seq<nat> :| Env(tab, FinalNul(tab, nul), rank).Valid();
    forall r {:trigger tab.rules[r]} | 0 <= r < |tab.rules| && r in tab.live
      ensures VerifyRule(tab.rules, nul, tab.rules[r], MAXRULES, false, true).Passed?
    {
      GroupOf(tab, r);
      hide Table.Valid, NulOk;
      RuleIsKept(tab, nul, rank, r, MAXRULES, tab.home[r], tab.home[r] + tab.size[r]);
    }
  }

  lemma RuleIsKept(tab: Table, nul: seq<bool>, rank: seq<nat>, r: nat, left: nat, lo: nat, hi: nat)
    requires tab.Valid() && NulOk(tab, nul) && |nul| == |tab.rules| && Env(tab, FinalNul(tab, nul), rank).Valid() && r < |tab.rules|
    requires lo <= hi <= lo + left && tab.TreeOk(tab.rules[r], lo, hi)
    requires forall i :: lo <= i < hi ==> tab.home[i] == lo && tab.size[i] == hi - lo
    ensures VerifyRule(tab.rules, nul, tab.rules[r], left, false, true).Passed?
  {
    hide Env.Valid, Table.Valid, VerifyRule, FinalNul, LeftRank, Table.TreeOk, NulOk, Below;
    RuleFacts(tab, nul, rank, r);
    InTable(tab, r, lo, hi);
    BelowSize(rank, lo, hi, rank[r]);
    RankedIsKept(tab, nul, rank, tab.rules[r], left, lo, hi, rank[r], false);
  }

  lemma InTable(tab: Table, r: nat, lo: nat, hi: nat)
    requires r < |tab.rules| && tab.TreeOk(tab.rules[r], lo, hi)
    ensures hi <= |tab.rules|
  {
  }

  /** So a left recursive grammar that the source accepts lost the flag in the run of some rule. */
  lemma AcceptedLeftRecursion(tab: Table, nul: seq<bool>)
    requires tab.Valid() && GroupsOk(tab) && Accepts(tab, nul) && TableClosed(tab)
    requires forall r :: 0 <= r < |tab.size| ==> tab.size[r] <= MAXRULES
    requires !Ranked(tab, nul)
    ensures !NeverDrops(tab, nul)
  {
    KeptIsExact(tab, nul);
    if NeverDrops(tab, nul) { NothingLost(tab, nul); }
  }

  // ---------------------------------------------------------------- grammars that pass all the same

  /** The grammar { A = -{ B = x } * V"A" }. */
  function Hidden(x: Tree): Table { Table([TSeq(TNot(TGrammar(1, 1)), TCall(0)), x], [0, 1], [1, 1], {0, 1}) }

  const NUL: seq<bool> := [false, false]

  lemma LowestGrammar(top: nat)
    requires top >= 1
    ensures MinFirst(TSeq(TNot(TGrammar(1, 1)), TCall(0)), top) == 1
  {
    assert MinFirst(TNot(TGrammar(1, 1)), top) == MinFirst(TGrammar(1, 1), top);
  }

  lemma HiddenShape(x: Tree)
    requires x.TChar? || x.TFalse?
    ensures Hidden(x).Valid() && GroupsOk(Hidden(x)) && Hidden(x).TreeOk(TGrammar(0, 1), 0, 0) && TableClosed(Hidden(x))
  {
    var tab := Hidden(x);
    assert tab.rules[0] == TSeq(TNot(TGrammar(1, 1)), TCall(0)) && tab.rules[1] == x;
    var inner := TNot(TGrammar(1, 1));
    LowestGrammar(2);
    assert tab.GrammarsOk(inner) && tab.GrammarsOk(TCall(0));
    assert CallsIn(inner, 0, 1, tab.live) && CallsIn(TCall(0), 0, 1, tab.live);
    assert tab.TreeOk(tab.rules[0], 0, 1) && tab.TreeOk(tab.rules[1], 1, 2);
  }

  /** As written the check ends the sequence after its first part; with the flag kept it walks into the bound. */
  lemma {:induction false} HiddenVerdict(x: Tree, left: nat)
    requires x.TChar? || x.TFalse?
    ensures forall r :: 0 <= r < 2 ==> VerifyRule(Hidden(x).rules, NUL, Hidden(x).rules[r], left, false, false) == Passed(false)
    ensures Drops(Hidden(x).rules, NUL, Hidden(x).rules[0], left, false)
    ensures VerifyRule(Hidden(x).rules, NUL, Hidden(x).rules[0], left, false, true).Rejected?
    decreases left
  {
    var rules := Hidden(x).rules;
    assert rules[0] == TSeq(TNot(TGrammar(1, 1)), TCall(0)) && rules[1] == x;
    assert VerifyRule(rules, NUL, TNot(TGrammar(1, 1)), left, false, false) == Passed(false);
    assert VerifyRule(rules, NUL, TNot(TGrammar(1, 1)), left, false, true) == Passed(true);
    if left > 0 {
      HiddenVerdict(x, left - 1);
      assert VerifyRule(rules, NUL, TCall(0), left, false, true).Rejected?;
    }
  }

  /** The grammar passes every check and has no look-behind; but the flag is lost on the way. */
  lemma HiddenPasses(x: Tree)
    requires x.TChar? || x.TFalse?
    ensures PatternOk(Hidden(x), NUL, TGrammar(0, 1)) && TableClosed(Hidden(x))
    ensures !FlagKept(Hidden(x), NUL) && !NeverDrops(Hidden(x), NUL)
  {
    HiddenShape(x);
    HiddenVerdict(x, MAXRULES);
    var tab := Hidden(x);
    hide VerifyRule, Drops, Table.Valid, GroupsOk, TableClosed, Table.TreeOk;
    assert tab.rules[0] == TSeq(TNot(TGrammar(1, 1)), TCall(0)) && tab.rules[1] == x;
    forall r {:trigger tab.rules[r]} | 0 <= r < |tab.rules|
      ensures NUL[r] == NullableIn(NUL, tab.rules[r]) && !CheckLoops(NUL, tab.rules[r]) && BehindsOk(tab.rules, tab.rules[r])
    {
      if r == 0 { RuleParts(tab.rules); } else { assert r == 1; }
    }
  }

  lemma RuleParts(rules: seq<Tree>)
    ensures var t := TSeq(TNot(TGrammar(1, 1)), TCall(0)); !NullableIn(NUL, t) && !CheckLoops(NUL, t) && BehindsOk(rules, t)
  {
  }

  lemma {:induction false} HiddenNeverEnds(x: Tree, subj: seq<Byte>, s: nat, fuel: nat)
    requires x.TFalse? || (x.TChar? && !Next(subj, s, {x.c}))
    ensures Eval(Hidden(x).rules, TGrammar(0, 1), subj, s, fuel) == Out
    ensures Eval(Hidden(x).rules, TCall(0), subj, s, fuel) == Out
    decreases fuel
  {
    if fuel > 0 {
      HiddenNeverEnds(x, subj, s, fuel - 1);
      var rules := Hidden(x).rules;
      assert fuel > 1 ==> Eval(rules, TGrammar(1, 1), subj, s, fuel - 1) == Eval(rules, x, subj, s, fuel - 2);
      assert Eval(rules, TNot(TGrammar(1, 1)), subj, s, fuel - 1) == if fuel > 1 then Ok(s) else Out;
      assert rules[0] == TSeq(TNot(TGrammar(1, 1)), TCall(0));
    }
  }

  lemma HiddenFails(x: Tree, subj: seq<Byte>, s: nat)
    requires x.TChar? && Next(subj, s, {x.c})
    ensures Gives(Hidden(x).rules, TGrammar(0, 1), subj, s, Fail)
  {
    var rules := Hidden(x).rules;
    assert Eval(rules, TGrammar(1, 1), subj, s, 1) == Eval(rules, x, subj, s, 0) == Ok(s + 1);
    assert Eval(rules, TNot(TGrammar(1, 1)), subj, s, 1) == Fail;
    assert Eval(rules, TGrammar(0, 1), subj, s, 2) == Eval(rules, rules[0], subj, s, 1) == Fail;
  }

  /** The accepted grammar { A = -{ B = c } * V"A" } has a meaning only where c comes next. */
  lemma AcceptedHidden(c: Byte, subj: seq<Byte>, s: nat)
    ensures PatternOk(Hidden(TChar(c)), NUL, TGrammar(0, 1)) && TableClosed(Hidden(TChar(c)))
    ensures !FlagKept(Hidden(TChar(c)), NUL) && !NeverDrops(Hidden(TChar(c)), NUL)
    ensures (exists r :: Gives(Hidden(TChar(c)).rules, TGrammar(0, 1), subj, s, r)) <==> Next(subj, s, {c})
  {
    HiddenPasses(TChar(c));
    hide PatternOk, TableClosed, FlagKept, NeverDrops, Eval;
    if Next(subj, s, {c}) {
      HiddenFails(TChar(c), subj, s);
    } else {
      forall fuel: nat ensures Eval(Hidden(TChar(c)).rules, TGrammar(0, 1), subj, s, fuel) == Out {
        HiddenNeverEnds(TChar(c), subj, s, fuel);
      }
    }
  }

  // ---------------------------------------------------------------- and a compiler that does not end

  /** What stands in for the calling rule while the rest is coded: the code of a call does not look at its rule. */
  function Stub(): (env: Env)
    ensures env.Valid() && env.tab.GrammarsOk(TNot(TGrammar(1, 1))) && env.tab.GrammarsOk(TCall(0))
  {
    var env := Env(Table([TTrue, TFalse], [0, 1], [1, 1], {0, 1}), [true, false], [0, 0]);
    assert env.tab.rules[0] == TTrue && env.tab.rules[1] == TFalse;
    env
  }

  /** The code of { A = -{ B = false } * V"A" }, before and after its call is closed. */
  const OPEN: seq<Instr> := [ICall(2), IJmp(5), IJmp(2), IFail, IOpenCall(0), IRet, IEnd]

  const CLOSED: seq<Instr> := OPEN[4 := IJmp(-2)]

  /** Its body is a jump over the negated grammar, which always fails, and the call. */
  lemma HiddenCode(fl: Charset)
    ensures OPEN[2..5] == Gen(Stub(), TNot(TGrammar(1, 1)), false, NoTest, fl) + Gen(Stub(), TCall(0), false, NoTest, fl)
  {
    hide Gen, GetFirst, HeadFail, Env.Valid;
    FailingGrammar(Stub());
    NegatedFailure(Stub(), TGrammar(1, 1), fl);
    CallCode(Stub(), 0, fl);
  }

  lemma CallCode(env: Env, r: nat, fl: Charset)
    requires env.Valid() && env.tab.GrammarsOk(TCall(r))
    ensures Gen(env, TCall(r), false, NoTest, fl) == [IOpenCall(r)]
  {
  }

  lemma FailingGrammar(env: Env)
    requires env.Valid() && |env.tab.rules| == 2 && env.tab.rules[1] == TFalse
    ensures GetFirst(env, TGrammar(1, 1), Full) == First({}, false) && HeadFail(env, TGrammar(1, 1))
  {
    assert GetFirst(env, TFalse, Full) == First({}, false) && HeadFail(env, TFalse);
  }

  /** A negated pattern with an empty first set is jumped over. */
  lemma NegatedFailure(env: Env, p: Tree, fl: Charset)
    requires env.Valid() && env.tab.GrammarsOk(TNot(p)) && GetFirst(env, p, Full) == First({}, false) && HeadFail(env, p)
    ensures Gen(env, TNot(p), false, NoTest, fl) == [IJmp(2), IFail]
  {
    hide Env.Valid, GetFirst, HeadFail;
  }

  lemma {:induction false} CycleStays(a: int, b: int, k: nat)
    requires (a == 2 || a == 4) && Chain(CLOSED, a, b, k)
    ensures b == 2 || b == 4
    decreases k
  {
    if k > 0 { CycleStays(a + CLOSED[a].off, b, k - 1); }
  }

  lemma CycleHasNoTarget()
    ensures forall b :: JumpsTo(CLOSED, 2, b) ==> 0 <= b < |CLOSED| && CLOSED[b].IJmp?
  {
    forall b | JumpsTo(CLOSED, 2, b) ensures 0 <= b < |CLOSED| && CLOSED[b].IJmp? {
      var k: nat :| Chain(CLOSED, 2, b, k);
      CycleStays(2, b, k);
    }
  }

  lemma CycleHasNoPotential(code: seq<Instr>, pot: seq<nat>)
    requires code == OPEN || code == CLOSED
    ensures !WellFounded(Program(code, map[0 := 2]), pot)
  {
    assert code[2] == IJmp(2) && (code[4] == IOpenCall(0) || code[4] == IJmp(-2));
  }

  lemma CycleCloses(j: nat)
    requires j < |OPEN|
    ensures Closed(map[0 := 2], OPEN[j], j, CLOSED[j])
  {
  }

  /** An accepted grammar whose jumps form a cycle: finaltarget finds no end, and no potential descends. */
  lemma AcceptedCycle()
    ensures PatternOk(Hidden(TFalse), NUL, TGrammar(0, 1)) && TableClosed(Hidden(TFalse)) && !FlagKept(Hidden(TFalse), NUL)
    ensures |CLOSED| == |OPEN| && forall j :: 0 <= j < |OPEN| ==> Closed(map[0 := 2], OPEN[j], j, CLOSED[j])
    ensures forall b :: JumpsTo(CLOSED, 2, b) ==> 0 <= b < |CLOSED| && CLOSED[b].IJmp?
    ensures forall pot :: !WellFounded(Program(OPEN, map[0 := 2]), pot) && !WellFounded(Program(CLOSED, map[0 := 2]), pot)
  {
    HiddenPasses(TFalse);
    CycleHasNoTarget();
    hide PatternOk, TableClosed, FlagKept, JumpsTo, WellFounded, Closed;
    forall j | 0 <= j < |OPEN| ensures Closed(map[0 := 2], OPEN[j], j, CLOSED[j]) { CycleCloses(j); }
    forall pot ensures !WellFounded(Program(OPEN, map[0 := 2]), pot) && !WellFounded(Program(CLOSED, map[0 := 2]), pot) {
      CycleHasNoPotential(OPEN, pot);
      CycleHasNoPotential(CLOSED, pot);
    }
  }
}
