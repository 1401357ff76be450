/**
 * The static check of grammars (3rd/lpeg/lptree.c: verifyrule, checkloops, verifygrammar)
 * and what it buys: every accepted grammar terminates on every subject, provided that the check
 * did not lose its flag at a nested grammar and that look-behind patterns contain no calls.
 */
module PegVerify {
  import opened PegSyntax
  import opened PegSemantics
  import opened PegAnalysis

  datatype Verdict = Rejected | Passed(nb: bool)

  /**
   * verifyrule: visits the rules that `t` can enter before consuming a character. `left` is
   * how many more rules may be entered (MAXRULES - npassed); `nb` accumulates nullability.
   * At a nested grammar the source answers with the grammar's own nullability `nul[f]` and drops
   * what `nb` held. With `kept` the flag is kept there, as it is everywhere else.
   */
  function VerifyRule(rules: seq<Tree>, nul: seq<bool>, t: Tree, left: nat, nb: bool, kept: bool): Verdict
    decreases left, t
  {
    match t
    case TChar(_) => Passed(nb)
    case TSet(_) => Passed(nb)
    case TAny => Passed(nb)
    case TFalse => Passed(nb)
    case TTrue => Passed(true)
    case TBehind(_, _) => Passed(true)
    case TNot(p) => VerifyRule(rules, nul, p, left, true, kept)
    case TAnd(p) => VerifyRule(rules, nul, p, left, true, kept)
    case TRep(p) => VerifyRule(rules, nul, p, left, true, kept)
    case TCall(r) =>
      if left == 0 || r >= |rules| then Rejected else VerifyRule(rules, nul, rules[r], left - 1, nb, kept)
    case TSeq(a, b) => (
      match VerifyRule(rules, nul, a, left, false, kept)
      case Rejected => Rejected
      case Passed(n) => if n then VerifyRule(rules, nul, b, left, nb, kept) else Passed(nb)
    )
    case TChoice(a, b) => (
      match VerifyRule(rules, nul, a, left, nb, kept)
      case Rejected => Rejected
      case Passed(n) => VerifyRule(rules, nul, b, left, n, kept)
    )
    case TGrammar(f, _) => Passed((kept && nb) || (f < |nul| && nul[f]))
  }

  /** checkloops: does the tree contain a repetition of a nullable pattern? */
  predicate CheckLoops(nul: seq<bool>, t: Tree) {
    match t
    case TRep(p) => NullableIn(nul, p) || CheckLoops(nul, p)
    case TSeq(a, b) => CheckLoops(nul, a) || CheckLoops(nul, b)
    case TChoice(a, b) => CheckLoops(nul, a) || CheckLoops(nul, b)
    case TNot(p) => CheckLoops(nul, p)
    case TAnd(p) => CheckLoops(nul, p)
    case TBehind(p, _) => CheckLoops(nul, p)
    case _ => false
  }

  /** lp_behind only builds a look-behind of a pattern of fixed, bounded length. */
  predicate BehindsOk(rules: seq<Tree>, t: Tree) {
    match t
    case TRep(p) => BehindsOk(rules, p)
    case TSeq(a, b) => BehindsOk(rules, a) && BehindsOk(rules, b)
    case TChoice(a, b) => BehindsOk(rules, a) && BehindsOk(rules, b)
    case TNot(p) => BehindsOk(rules, p)
    case TAnd(p) => BehindsOk(rules, p)
    case TBehind(p, n) => Fixed(rules, p) == n <= MAXBEHIND && BehindsOk(rules, p)
    case _ => true
  }

  /** The proviso: look-behind patterns contain no calls to the enclosing grammar. */
  predicate BehindsClosed(t: Tree) {
    match t
    case TRep(p) => BehindsClosed(p)
    case TSeq(a, b) => BehindsClosed(a) && BehindsClosed(b)
    case TChoice(a, b) => BehindsClosed(a) && BehindsClosed(b)
    case TNot(p) => BehindsClosed(p)
    case TAnd(p) => BehindsClosed(p)
    case TBehind(p, _) => NoCalls(p) && BehindsClosed(p)
    case _ => true
  }

  /** `nul` is what nullable can answer for the rules that calls go to. */
  predicate NulOk(tab: Table, nul: seq<bool>) {
    && |nul| == |tab.rules|
    && forall r {:trigger tab.rules[r]} :: 0 <= r < |tab.rules| && r in tab.live ==> nul[r] == NullableIn(nul, tab.rules[r])
  }

  /** verifygrammar on every grammar of the table, as written. */
  predicate Accepts(tab: Table, nul: seq<bool>) {
    && NulOk(tab, nul)
    && forall r {:trigger tab.rules[r]} :: 0 <= r < |tab.rules| && r in tab.live ==>
      && VerifyRule(tab.rules, nul, tab.rules[r], MAXRULES, false, false).Passed?
      && !CheckLoops(nul, tab.rules[r])
      && BehindsOk(tab.rules, tab.rules[r])
  }

  /** The check passes with the flag kept at nested grammars, too. */
  predicate FlagKept(tab: Table, nul: seq<bool>) {
    forall r {:trigger tab.rules[r]} :: 0 <= r < |tab.rules| && r in tab.live ==>
      VerifyRule(tab.rules, nul, tab.rules[r], MAXRULES, false, true).Passed?
  }

  predicate TableClosed(tab: Table) {
    forall r {:trigger tab.rules[r]} :: 0 <= r < |tab.rules| ==> BehindsClosed(tab.rules[r])
  }

  // ---------------------------------------------------------------- the rank of a rule

  /** Longest chain of rules that a tree can enter without consuming, when the check passed. */
  function Depth(rules: seq<Tree>, nul: seq<bool>, t: Tree, left: nat): nat
    decreases left, t
  {
    match t
    case TNot(p) => Depth(rules, nul, p, left)
    case TAnd(p) => Depth(rules, nul, p, left)
    case TRep(p) => Depth(rules, nul, p, left)
    case TCall(r) => if left == 0 || r >= |rules| then 0 else 1 + Depth(rules, nul, rules[r], left - 1)
    case TSeq(a, b) =>
      if VerifyRule(rules, nul, a, left, false, true) == Passed(true)
      then Max(Depth(rules, nul, a, left), Depth(rules, nul, b, left))
      else Depth(rules, nul, a, left)
    case TChoice(a, b) => Max(Depth(rules, nul, a, left), Depth(rules, nul, b, left))
    case _ => 0
  }

  lemma {:induction false} AccumulatorOnly(rules: seq<Tree>, nul: seq<bool>, t: Tree, left: nat, nb: bool)
    ensures VerifyRule(rules, nul, t, left, nb, true).Passed? <==> VerifyRule(rules, nul, t, left, false, true).Passed?
    ensures VerifyRule(rules, nul, t, left, nb, true).Passed? ==>
      VerifyRule(rules, nul, t, left, nb, true).nb == (nb || VerifyRule(rules, nul, t, left, false, true).nb)
    decreases left, t
  {
    match t
    case TSeq(a, b) => AccumulatorOnly(rules, nul, b, left, nb);
    case TChoice(a, b) =>
      AccumulatorOnly(rules, nul, a, left, nb);
      var v := VerifyRule(rules, nul, a, left, nb, true);
      var w := VerifyRule(rules, nul, a, left, false, true);
      if v.Passed? { AccumulatorOnly(rules, nul, b, left, v.nb); AccumulatorOnly(rules, nul, b, left, w.nb); }
    case TNot(p) => AccumulatorOnly(rules, nul, p, left, true);
    case TAnd(p) => AccumulatorOnly(rules, nul, p, left, true);
    case TRep(p) => AccumulatorOnly(rules, nul, p, left, true);
    case TCall(r) => if left > 0 && r < |rules| { AccumulatorOnly(rules, nul, rules[r], left - 1, nb); }
    case _ =>
  }

  /** The verdict and the depth do not depend on the bound once the bound suffices. */
  lemma {:induction false} BoundIrrelevant(rules: seq<Tree>, nul: seq<bool>, t: Tree, left: nat, more: nat, nb: bool)
    requires left <= more
    requires VerifyRule(rules, nul, t, left, nb, true).Passed?
    ensures VerifyRule(rules, nul, t, more, nb, true) == VerifyRule(rules, nul, t, left, nb, true)
    ensures Depth(rules, nul, t, more) == Depth(rules, nul, t, left) <= left
    decreases left, t
  {
    match t
    case TSeq(a, b) =>
      BoundIrrelevant(rules, nul, a, left, more, false);
      if VerifyRule(rules, nul, a, left, false, true) == Passed(true) { BoundIrrelevant(rules, nul, b, left, more, nb); }
    case TChoice(a, b) =>
      BoundIrrelevant(rules, nul, a, left, more, nb);
      BoundIrrelevant(rules, nul, b, left, more, VerifyRule(rules, nul, a, left, nb, true).nb);
    case TNot(p) => BoundIrrelevant(rules, nul, p, left, more, true);
    case TAnd(p) => BoundIrrelevant(rules, nul, p, left, more, true);
    case TRep(p) => BoundIrrelevant(rules, nul, p, left, more, true);
    case TCall(r) => BoundIrrelevant(rules, nul, rules[r], left - 1, more - 1, nb);
    case _ =>
  }

  /** The verdict is the nullability of the tree. */
  lemma {:induction false} VerdictIsNullable(tab: Table, nul: seq<bool>, t: Tree, left: nat, lo: nat, hi: nat)
    requires tab.Valid() && NulOk(tab, nul) && tab.TreeOk(t, lo, hi)
    requires VerifyRule(tab.rules, nul, t, left, false, true).Passed?
    ensures VerifyRule(tab.rules, nul, t, left, false, true).nb == NullableIn(nul, t)
    decreases left, t
  {
    match t
    case TSeq(a, b) =>
      VerdictIsNullable(tab, nul, a, left, lo, hi);
      if NullableIn(nul, a) { VerdictIsNullable(tab, nul, b, left, lo, hi); }
    case TChoice(a, b) =>
      VerdictIsNullable(tab, nul, a, left, lo, hi);
      AccumulatorOnly(tab.rules, nul, b, left, VerifyRule(tab.rules, nul, a, left, false, true).nb);
      VerdictIsNullable(tab, nul, b, left, lo, hi);
    case TNot(p) => AccumulatorOnly(tab.rules, nul, p, left, true);
    case TAnd(p) => AccumulatorOnly(tab.rules, nul, p, left, true);
    case TRep(p) => AccumulatorOnly(tab.rules, nul, p, left, true);
    case TCall(r) => VerdictIsNullable(tab, nul, tab.rules[r], left - 1, tab.home[r], tab.home[r] + tab.size[r]);
    case _ =>
  }

  /** Rank of a live rule: outer grammars above nested ones, then the depth of left calls. */
  function LiveRank(tab: Table, nul: seq<bool>, r: nat): nat
    requires tab.Valid() && r < |tab.rules|
  {
    (|tab.rules| - tab.home[r]) * (MAXRULES + 1) + Depth(tab.rules, nul, tab.rules[r], MAXRULES)
  }

  function LiveRanks(tab: Table, nul: seq<bool>): (ranks: seq<nat>)
    requires tab.Valid()
    ensures |ranks| == |tab.rules|
    ensures forall r :: 0 <= r < |ranks| ==> ranks[r] == LiveRank(tab, nul, r)
  {
    seq(|tab.rules|, r requires 0 <= r < |tab.rules| => LiveRank(tab, nul, r))
  }

  lemma RankGap(n: nat, outer: nat, inner: nat, d: nat)
    requires outer < inner <= n && d <= MAXRULES
    ensures (n - inner) * (MAXRULES + 1) + d + 1 <= (n - outer) * (MAXRULES + 1)
  {
  }

  /** Left calls of a tree of group lo..hi enter rules of bounded rank. */
  lemma {:induction false} LeftRankBound(tab: Table, nul: seq<bool>, t: Tree, left: nat, lo: nat, hi: nat, nb: bool)
    requires tab.Valid() && NulOk(tab, nul) && FlagKept(tab, nul) && tab.TreeOk(t, lo, hi) && BehindsClosed(t) && left <= MAXRULES
    requires lo < hi && forall i :: lo <= i < hi ==> tab.home[i] == lo
    requires VerifyRule(tab.rules, nul, t, left, nb, true).Passed?
    ensures LeftRank(nul, LiveRanks(tab, nul), t)
      <= (|tab.rules| - lo) * (MAXRULES + 1) + Depth(tab.rules, nul, t, left)
  {
    match t
    case TSeq(a, b) =>
      LeftRankBound(tab, nul, a, left, lo, hi, false);
      VerdictIsNullable(tab, nul, a, left, lo, hi);
      if NullableIn(nul, a) { LeftRankBound(tab, nul, b, left, lo, hi, nb); }
    case TChoice(a, b) =>
      LeftRankBound(tab, nul, a, left, lo, hi, nb);
      LeftRankBound(tab, nul, b, left, lo, hi, VerifyRule(tab.rules, nul, a, left, nb, true).nb);
    case TNot(p) => LeftRankBound(tab, nul, p, left, lo, hi, true);
    case TAnd(p) => LeftRankBound(tab, nul, p, left, lo, hi, true);
    case TRep(p) => LeftRankBound(tab, nul, p, left, lo, hi, true);
    case TCall(r) => BoundIrrelevant(tab.rules, nul, tab.rules[r], left - 1, MAXRULES, nb);
    case TGrammar(f, c) =>
      BoundIrrelevant(tab.rules, nul, tab.rules[f], MAXRULES, MAXRULES, false);
      RankGap(|tab.rules|, lo, f, Depth(tab.rules, nul, tab.rules[f], MAXRULES));
      assert tab.home[f] == f;
    case TBehind(p, _) => ClosedRankBound(tab, nul, p, lo, hi);
    case _ =>
  }

  lemma {:induction false} ClosedRankBound(tab: Table, nul: seq<bool>, t: Tree, lo: nat, hi: nat)
    requires tab.Valid() && NulOk(tab, nul) && FlagKept(tab, nul) && tab.TreeOk(t, lo, hi) && NoCalls(t) && lo < hi
    ensures LeftRank(nul, LiveRanks(tab, nul), t) <= (|tab.rules| - lo) * (MAXRULES + 1)
  {
    match t
    case TSeq(a, b) => ClosedRankBound(tab, nul, a, lo, hi); ClosedRankBound(tab, nul, b, lo, hi);
    case TChoice(a, b) => ClosedRankBound(tab, nul, a, lo, hi); ClosedRankBound(tab, nul, b, lo, hi);
    case TNot(p) => ClosedRankBound(tab, nul, p, lo, hi);
    case TAnd(p) => ClosedRankBound(tab, nul, p, lo, hi);
    case TRep(p) => ClosedRankBound(tab, nul, p, lo, hi);
    case TBehind(p, _) => ClosedRankBound(tab, nul, p, lo, hi);
    case TGrammar(f, c) =>
      BoundIrrelevant(tab.rules, nul, tab.rules[f], MAXRULES, MAXRULES, false);
      RankGap(|tab.rules|, lo, f, Depth(tab.rules, nul, tab.rules[f], MAXRULES));
      assert tab.home[f] == f;
    case _ =>
  }

  // Rules that nothing refers to are compiled although never checked; nothing calls them,
  // so their own rank and nullability can be read off their bodies.

  function FinalNul(tab: Table, nul: seq<bool>): (res: seq<bool>)
    requires |nul| == |tab.rules|
    ensures |res| == |tab.rules|
    ensures forall r :: 0 <= r < |res| ==> res[r] == (if r in tab.live then nul[r] else NullableIn(nul, tab.rules[r]))
  {
    seq(|tab.rules|, r requires 0 <= r < |tab.rules| =>
      if r in tab.live then nul[r] else NullableIn(nul, tab.rules[r]))
  }

  function FinalRank(tab: Table, nul: seq<bool>): (res: seq<nat>)
    requires tab.Valid() && |nul| == |tab.rules|
    ensures |res| == |tab.rules|
    ensures forall r :: 0 <= r < |res| ==>
      res[r] == (if r in tab.live then LiveRank(tab, nul, r) else LeftRank(nul, LiveRanks(tab, nul), tab.rules[r]))
  {
    seq(|tab.rules|, r requires 0 <= r < |tab.rules| =>
      if r in tab.live then LiveRank(tab, nul, r) else LeftRank(nul, LiveRanks(tab, nul), tab.rules[r]))
  }

  lemma {:induction false} FinalAgrees(tab: Table, nul: seq<bool>, t: Tree, lo: nat, hi: nat)
    requires tab.Valid() && |nul| == |tab.rules| && tab.TreeOk(t, lo, hi)
    ensures NullableIn(FinalNul(tab, nul), t) == NullableIn(nul, t)
    ensures LeftRank(FinalNul(tab, nul), FinalRank(tab, nul), t) == LeftRank(nul, LiveRanks(tab, nul), t)
  {
    match t
    case TSeq(a, b) => FinalAgrees(tab, nul, a, lo, hi); FinalAgrees(tab, nul, b, lo, hi);
    case TChoice(a, b) => FinalAgrees(tab, nul, a, lo, hi); FinalAgrees(tab, nul, b, lo, hi);
    case TNot(p) => FinalAgrees(tab, nul, p, lo, hi);
    case TAnd(p) => FinalAgrees(tab, nul, p, lo, hi);
    case TRep(p) => FinalAgrees(tab, nul, p, lo, hi);
    case TBehind(p, _) => FinalAgrees(tab, nul, p, lo, hi);
    case _ =>
  }

  function EnvOf(tab: Table, nul: seq<bool>): Env
    requires tab.Valid() && |nul| == |tab.rules|
  {
    Env(tab, FinalNul(tab, nul), FinalRank(tab, nul))
  }

  predicate GroupsOk(tab: Table) {
    && |tab.home| == |tab.size|
    && forall r, i :: 0 <= r < |tab.home| && tab.home[r] <= i < tab.home[r] + tab.size[r] && i < |tab.home| ==>
      tab.home[i] == tab.home[r] && tab.size[i] == tab.size[r]
  }

  lemma RuleRanked(tab: Table, nul: seq<bool>, r: nat)
    requires tab.Valid() && GroupsOk(tab) && NulOk(tab, nul) && FlagKept(tab, nul) && TableClosed(tab)
    requires r < |tab.rules|
    ensures FinalNul(tab, nul)[r] == NullableIn(FinalNul(tab, nul), tab.rules[r])
    ensures LeftRank(FinalNul(tab, nul), FinalRank(tab, nul), tab.rules[r]) <= FinalRank(tab, nul)[r]
  {
    var t, lo, hi := tab.rules[r], tab.home[r], tab.home[r] + tab.size[r];
    GroupOf(tab, r);
    assert BehindsClosed(t);
    hide Table.Valid, GroupsOk, VerifyRule, BehindsClosed;
    FinalAgrees(tab, nul, t, lo, hi);
    if r in tab.live {
      LeftRankBound(tab, nul, t, MAXRULES, lo, hi, false);
      VerdictIsNullable(tab, nul, t, MAXRULES, lo, hi);
    }
  }

  /** The group of a rule. */
  lemma GroupOf(tab: Table, r: nat)
    requires tab.Valid() && GroupsOk(tab) && r < |tab.rules|
    ensures var lo, hi := tab.home[r], tab.home[r] + tab.size[r];
      && tab.TreeOk(tab.rules[r], lo, hi) && lo <= r < hi <= |tab.rules|
      && forall i :: lo <= i < hi ==> tab.home[i] == lo && tab.size[i] == hi - lo
  {
    assert tab.TreeOk(tab.rules[r], tab.home[r], tab.home[r] + tab.size[r]);
  }

  /** A grammar that passes the check with the flag kept has no left recursion: its left calls are ranked. */
  lemma AcceptedIsRanked(tab: Table, nul: seq<bool>)
    requires tab.Valid() && GroupsOk(tab) && NulOk(tab, nul) && FlagKept(tab, nul) && TableClosed(tab)
    ensures EnvOf(tab, nul).Valid()
  {
    var fn, fr := FinalNul(tab, nul), FinalRank(tab, nul);
    forall r {:trigger tab.rules[r]} | 0 <= r < |tab.rules|
      ensures fn[r] == NullableIn(fn, tab.rules[r]) && LeftRank(fn, fr, tab.rules[r]) <= fr[r]
    {
      RuleRanked(tab, nul, r);
    }
  }

  lemma {:induction false} LoopFree(tab: Table, nul: seq<bool>, t: Tree, lo: nat, hi: nat)
    requires tab.Valid() && GroupsOk(tab) && Accepts(tab, nul) && FlagKept(tab, nul) && TableClosed(tab)
    requires EnvOf(tab, nul).Valid() && tab.TreeOk(t, lo, hi)
    requires !CheckLoops(nul, t) && BehindsOk(tab.rules, t) && BehindsClosed(t)
    ensures NodesOk(EnvOf(tab, nul), t)
  {
    match t
    case TSeq(a, b) => LoopFree(tab, nul, a, lo, hi); LoopFree(tab, nul, b, lo, hi);
    case TChoice(a, b) => LoopFree(tab, nul, a, lo, hi); LoopFree(tab, nul, b, lo, hi);
    case TNot(p) => LoopFree(tab, nul, p, lo, hi);
    case TAnd(p) => LoopFree(tab, nul, p, lo, hi);
    case TRep(p) => LoopFree(tab, nul, p, lo, hi); FinalAgrees(tab, nul, p, lo, hi);
    case TBehind(p, _) => LoopFree(tab, nul, p, lo, hi);
    case _ =>
  }

  lemma RuleLoopFree(tab: Table, nul: seq<bool>, r: nat)
    requires tab.Valid() && GroupsOk(tab) && Accepts(tab, nul) && FlagKept(tab, nul) && TableClosed(tab)
    requires EnvOf(tab, nul).Valid() && r < |tab.rules| && r in tab.live
    ensures NodesOk(EnvOf(tab, nul), tab.rules[r])
  {
    hide Env.Valid, NodesOk, CheckLoops, BehindsOk, BehindsClosed, VerifyRule, EnvOf;
    var t := tab.rules[r];
    assert BehindsClosed(t) && !CheckLoops(nul, t) && BehindsOk(tab.rules, t);
    LoopFree(tab, nul, t, tab.home[r], tab.home[r] + tab.size[r]);
  }

  lemma AcceptedIsSound(tab: Table, nul: seq<bool>)
    requires tab.Valid() && GroupsOk(tab) && Accepts(tab, nul) && FlagKept(tab, nul) && TableClosed(tab)
    ensures Sound(EnvOf(tab, nul))
  {
    hide Env.Valid, NodesOk, Table.Valid, GroupsOk, TableClosed;
    assert |nul| == |tab.rules|;
    AcceptedIsRanked(tab, nul);
    forall r | r in tab.live && r < |tab.rules|
      ensures NodesOk(EnvOf(tab, nul), tab.rules[r])
    {
      RuleLoopFree(tab, nul, r);
    }
  }

  // ---------------------------------------------------------------- termination

  /** Patterns without calls of their own: structural, loops consume, nested grammars are deeper. */
  lemma {:induction false} TerminatesClosed(env: Env, hi: nat, t: Tree, subj: seq<Byte>, s: nat) returns (fuel: nat)
    requires Sound(env) && NodesOk(env, t) && NoCalls(t) && env.tab.TreeOk(t, hi, hi) && s <= |subj|
    ensures Eval(env.tab.rules, t, subj, s, fuel) != Out
    decreases |env.tab.rules| - hi, 0, t, |subj| - s
  {
    var rules := env.tab.rules;
    fuel := 0;
    match t
    case TSeq(a, b) =>
      var f1 := TerminatesClosed(env, hi, a, subj, s);
      EvalBounds(rules, a, subj, s, f1);
      fuel := f1;
      if Eval(rules, a, subj, s, f1).Ok? {
        var f2 := TerminatesClosed(env, hi, b, subj, Eval(rules, a, subj, s, f1).pos);
        fuel := f1 + f2;
        FuelMonotone(rules, a, subj, s, f1, fuel);
        FuelMonotone(rules, b, subj, Eval(rules, a, subj, s, f1).pos, f2, fuel);
      }
    case TChoice(a, b) =>
      var f1 := TerminatesClosed(env, hi, a, subj, s);
      var f2 := TerminatesClosed(env, hi, b, subj, s);
      fuel := f1 + f2;
      FuelMonotone(rules, a, subj, s, f1, fuel);
      FuelMonotone(rules, b, subj, s, f2, fuel);
    case TNot(p) => fuel := TerminatesClosed(env, hi, p, subj, s);
    case TAnd(p) => fuel := TerminatesClosed(env, hi, p, subj, s);
    case TBehind(p, n) => if n <= s { fuel := TerminatesClosed(env, hi, p, subj, s - n); }
    case TRep(p) =>
      var f1 := TerminatesClosed(env, hi, p, subj, s);
      EvalBounds(rules, p, subj, s, f1);
      fuel := f1;
      var r := Eval(rules, p, subj, s, f1);
      if r.Ok? {
        if r.pos == s { NullableSound(env, p, subj, s, f1); }
        var f2 := TerminatesClosed(env, hi, t, subj, r.pos);
        fuel := f1 + f2 + 1;
        FuelMonotone(rules, p, subj, s, f1, fuel);
        FuelMonotone(rules, t, subj, r.pos, f2, fuel - 1);
      }
    case TGrammar(f, c) =>
      env.tab.GroupFacts(f, c);
      var f1 := Terminates(env, f, f + c, rules[f], subj, s);
      fuel := f1 + 1;
    case _ =>
  }

  /** Patterns inside a grammar: remaining input, then rank of left calls, then the tree. */
  lemma {:induction false} Terminates(env: Env, lo: nat, hi: nat, t: Tree, subj: seq<Byte>, s: nat) returns (fuel: nat)
    requires Sound(env) && NodesOk(env, t) && env.tab.TreeOk(t, lo, hi) && s <= |subj|
    requires forall i :: lo <= i < hi ==> env.tab.home[i] == lo && env.tab.size[i] == hi - lo
    ensures Eval(env.tab.rules, t, subj, s, fuel) != Out
    decreases |env.tab.rules| - hi, 1, |subj| - s, env.Left(t), t
  {
    var rules := env.tab.rules;
    fuel := 0;
    match t
    case TSeq(a, b) =>
      var f1 := Terminates(env, lo, hi, a, subj, s);
      EvalBounds(rules, a, subj, s, f1);
      fuel := f1;
      var r := Eval(rules, a, subj, s, f1);
      if r.Ok? {
        if r.pos == s { NullableSound(env, a, subj, s, f1); }
        var f2 := Terminates(env, lo, hi, b, subj, r.pos);
        fuel := f1 + f2;
        FuelMonotone(rules, a, subj, s, f1, fuel);
        FuelMonotone(rules, b, subj, r.pos, f2, fuel);
      }
    case TChoice(a, b) =>
      var f1 := Terminates(env, lo, hi, a, subj, s);
      var f2 := Terminates(env, lo, hi, b, subj, s);
      fuel := f1 + f2;
      FuelMonotone(rules, a, subj, s, f1, fuel);
      FuelMonotone(rules, b, subj, s, f2, fuel);
    case TNot(p) => fuel := Terminates(env, lo, hi, p, subj, s);
    case TAnd(p) => fuel := Terminates(env, lo, hi, p, subj, s);
    case TBehind(p, n) =>
      if n <= s {
        NoCallsAnyGroup(p, lo, hi, hi, env.tab.live);
        fuel := TerminatesClosed(env, hi, p, subj, s - n);
      }
    case TRep(p) =>
      var f1 := Terminates(env, lo, hi, p, subj, s);
      EvalBounds(rules, p, subj, s, f1);
      fuel := f1;
      var r := Eval(rules, p, subj, s, f1);
      if r.Ok? {
        if r.pos == s { NullableSound(env, p, subj, s, f1); }
        var f2 := Terminates(env, lo, hi, t, subj, r.pos);
        fuel := f1 + f2 + 1;
        FuelMonotone(rules, p, subj, s, f1, fuel);
        FuelMonotone(rules, t, subj, r.pos, f2, fuel - 1);
      }
    case TCall(r) =>
      var f1 := Terminates(env, lo, hi, rules[r], subj, s);
      fuel := f1 + 1;
    case TGrammar(f, c) =>
      env.tab.GroupFacts(f, c);
      var f1 := Terminates(env, f, f + c, rules[f], subj, s);
      fuel := f1 + 1;
    case _ =>
  }

  lemma {:induction false} NoCallsAnyGroup(t: Tree, lo: nat, hi: nat, k: nat, live: set<nat>)
    requires NoCalls(t)
    ensures CallsIn(t, k, k, live)
  {
    match t
    case TRep(p) => NoCallsAnyGroup(p, lo, hi, k, live);
    case TSeq(a, b) => NoCallsAnyGroup(a, lo, hi, k, live); NoCallsAnyGroup(b, lo, hi, k, live);
    case TChoice(a, b) => NoCallsAnyGroup(a, lo, hi, k, live); NoCallsAnyGroup(b, lo, hi, k, live);
    case TNot(p) => NoCallsAnyGroup(p, lo, hi, k, live);
    case TAnd(p) => NoCallsAnyGroup(p, lo, hi, k, live);
    case TBehind(p, _) => NoCallsAnyGroup(p, lo, hi, k, live);
    case _ =>
  }

  /** A pattern over an accepted rule table. */
  predicate PatternOk(tab: Table, nul: seq<bool>, t: Tree) {
    && tab.Valid() && GroupsOk(tab) && Accepts(tab, nul)
    && tab.TreeOk(t, 0, 0) && !CheckLoops(nul, t) && BehindsOk(tab.rules, t)
  }

  /** Matching an accepted pattern terminates on every subject, from every position. */
  lemma AcceptedTerminates(tab: Table, nul: seq<bool>, t: Tree, subj: seq<Byte>, s: nat) returns (r: Outcome)
    requires PatternOk(tab, nul, t) && FlagKept(tab, nul) && TableClosed(tab) && BehindsClosed(t)
    requires s <= |subj|
    ensures Gives(tab.rules, t, subj, s, r)
  {
    AcceptedIsSound(tab, nul);
    LoopFree(tab, nul, t, 0, 0);
    var fuel := Terminates(EnvOf(tab, nul), 0, 0, t, subj, s);
    r := Eval(tab.rules, t, subj, s, fuel);
  }

  // ---------------------------------------------------------------- the proviso is needed

  /** The grammar { A = B(-V"A") }: a look-behind of length 0 around a negated call. */
  const Loop: Table := Table([TBehind(TNot(TCall(0)), 0)], [0], [1], {0})

  lemma {:induction false} LoopNeverEnds(subj: seq<Byte>, s: nat, fuel: nat)
    ensures Eval(Loop.rules, TGrammar(0, 1), subj, s, fuel) == Out
    ensures Eval(Loop.rules, TCall(0), subj, s, fuel) == Out
    decreases fuel
  {
    if fuel > 0 {
      LoopNeverEnds(subj, s, fuel - 1);
      assert Eval(Loop.rules, TNot(TCall(0)), subj, s, fuel - 1) == Out;
    }
  }

  /** It passes every check and yet its match never ends, on any subject. */
  lemma AcceptedLoop(subj: seq<Byte>, s: nat)
    ensures PatternOk(Loop, [true], TGrammar(0, 1))
    ensures !TableClosed(Loop)
    ensures forall r :: !Gives(Loop.rules, TGrammar(0, 1), subj, s, r)
  {
    assert Loop.rules[0] == TBehind(TNot(TCall(0)), 0);
    forall fuel: nat ensures Eval(Loop.rules, TGrammar(0, 1), subj, s, fuel) == Out {
      LoopNeverEnds(subj, s, fuel);
    }
  }
}
