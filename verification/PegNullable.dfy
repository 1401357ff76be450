/**
 * The run of nullable (3rd/lpeg/lpcode.c, checkaux with PEnullable) on a tree whose calls are
 * resolved. It need not end; where it does, its answers are the only ones that fit the rules.
 */
module PegNullable {
  import opened PegSyntax
  import opened PegAnalysis
  import opened PegVerify

  datatype Answer = Pending | Known(b: bool)

  /** The first alternative is only looked at when the second is not nullable, as in the source. */
  function CheckAuxRun(rules: seq<Tree>, t: Tree, fuel: nat): Answer
    decreases fuel, t
  {
    match t
    case TRep(_) => Known(true)
    case TTrue => Known(true)
    case TNot(_) => Known(true)
    case TBehind(_, _) => Known(true)
    case TAnd(_) => Known(true)
    case TSeq(a, b) => (
      match CheckAuxRun(rules, a, fuel)
      case Known(true) => CheckAuxRun(rules, b, fuel)
      case x => x
    )
    case TChoice(a, b) => (
      match CheckAuxRun(rules, b, fuel)
      case Known(false) => CheckAuxRun(rules, a, fuel)
      case x => x
    )
    case TCall(r) => if fuel == 0 || r >= |rules| then Pending else CheckAuxRun(rules, rules[r], fuel - 1)
    case TGrammar(f, _) => if fuel == 0 || f >= |rules| then Pending else CheckAuxRun(rules, rules[f], fuel - 1)
    case _ => Known(false)
  }

  lemma {:induction false} MoreFuel(rules: seq<Tree>, t: Tree, fuel: nat, more: nat)
    requires CheckAuxRun(rules, t, fuel).Known? && fuel <= more
    ensures CheckAuxRun(rules, t, more) == CheckAuxRun(rules, t, fuel)
    decreases fuel, t
  {
    match t
    case TSeq(a, b) =>
      MoreFuel(rules, a, fuel, more);
      if CheckAuxRun(rules, a, fuel).b { MoreFuel(rules, b, fuel, more); }
    case TChoice(a, b) =>
      MoreFuel(rules, b, fuel, more);
      if !CheckAuxRun(rules, b, fuel).b { MoreFuel(rules, a, fuel, more); }
    case TCall(r) => MoreFuel(rules, rules[r], fuel - 1, more - 1);
    case TGrammar(f, _) => MoreFuel(rules, rules[f], fuel - 1, more - 1);
    case _ =>
  }

  /** An answer is the one that every assignment fitting the rules gives. */
  lemma {:induction false} AnswerFits(tab: Table, nul: seq<bool>, t: Tree, lo: nat, hi: nat, fuel: nat)
    requires tab.Valid() && NulOk(tab, nul) && tab.TreeOk(t, lo, hi) && CheckAuxRun(tab.rules, t, fuel).Known?
    ensures CheckAuxRun(tab.rules, t, fuel).b == NullableIn(nul, t)
    decreases fuel, t
  {
    match t
    case TSeq(a, b) =>
      AnswerFits(tab, nul, a, lo, hi, fuel);
      if CheckAuxRun(tab.rules, a, fuel).b { AnswerFits(tab, nul, b, lo, hi, fuel); }
    case TChoice(a, b) =>
      AnswerFits(tab, nul, b, lo, hi, fuel);
      if !CheckAuxRun(tab.rules, b, fuel).b { AnswerFits(tab, nul, a, lo, hi, fuel); }
    case TCall(r) => AnswerFits(tab, nul, tab.rules[r], tab.home[r], tab.home[r] + tab.size[r], fuel - 1);
    case TGrammar(f, c) =>
      tab.GroupFacts(f, c);
      AnswerFits(tab, nul, tab.rules[f], tab.home[f], tab.home[f] + tab.size[f], fuel - 1);
    case _ =>
  }

  /** nullable ends on the rule. */
  ghost predicate Ends(rules: seq<Tree>, r: nat) {
    r < |rules| && exists fuel: nat :: CheckAuxRun(rules, rules[r], fuel).Known?
  }

  ghost predicate SaysYes(rules: seq<Tree>, r: nat)
    requires r < |rules|
  {
    exists fuel: nat :: CheckAuxRun(rules, rules[r], fuel) == Known(true)
  }

  /** Where nullable ends on the rules, its answers fit them. */
  lemma AnswersExist(tab: Table) returns (nul: seq<bool>)
    requires forall r :: r in tab.live && r < |tab.rules| ==> Ends(tab.rules, r)
    ensures NulOk(tab, nul)
  {
    nul := seq(|tab.rules|, r requires 0 <= r < |tab.rules| => SaysYes(tab.rules, r));
    forall r {:trigger tab.rules[r]} | 0 <= r < |tab.rules| && r in tab.live ensures nul[r] == NullableIn(nul, tab.rules[r]) {
      assert Ends(tab.rules, r);
      var fuel: nat :| CheckAuxRun(tab.rules, tab.rules[r], fuel).Known?;
      Agrees(tab.rules, r, fuel, CheckAuxRun(tab.rules, tab.rules[r], fuel).b);
      Composed(tab.rules, nul, tab.rules[r], fuel);
    }
  }

  lemma Agrees(rules: seq<Tree>, r: nat, fuel: nat, b: bool)
    requires r < |rules| && CheckAuxRun(rules, rules[r], fuel) == Known(b)
    ensures SaysYes(rules, r) == b
  {
    if SaysYes(rules, r) {
      var f2: nat :| CheckAuxRun(rules, rules[r], f2) == Known(true);
      MoreFuel(rules, rules[r], fuel, fuel + f2);
      MoreFuel(rules, rules[r], f2, fuel + f2);
    }
  }

  lemma {:induction false} Composed(rules: seq<Tree>, nul: seq<bool>, t: Tree, fuel: nat)
    requires |nul| == |rules| && forall r :: 0 <= r < |rules| ==> nul[r] == SaysYes(rules, r)
    requires CheckAuxRun(rules, t, fuel).Known?
    ensures CheckAuxRun(rules, t, fuel).b == NullableIn(nul, t)
    decreases t
  {
    match t
    case TSeq(a, b) =>
      Composed(rules, nul, a, fuel);
      if CheckAuxRun(rules, a, fuel).b { Composed(rules, nul, b, fuel); }
    case TChoice(a, b) =>
      Composed(rules, nul, b, fuel);
      if !CheckAuxRun(rules, b, fuel).b { Composed(rules, nul, a, fuel); }
    case TCall(r) => Agrees(rules, r, fuel - 1, CheckAuxRun(rules, rules[r], fuel - 1).b);
    case TGrammar(f, _) => Agrees(rules, f, fuel - 1, CheckAuxRun(rules, rules[f], fuel - 1).b);
    case _ =>
  }

  lemma CalleeFacts(env: Env, r: nat)
    requires env.Valid() && r < |env.tab.rules|
    ensures |env.tab.home| == |env.tab.size| == |env.tab.rules| == |env.rank| == |env.nul|
    ensures env.tab.TreeOk(env.tab.rules[r], env.tab.home[r], env.tab.home[r] + env.tab.size[r])
    ensures env.nul[r] == NullableIn(env.nul, env.tab.rules[r]) && env.Left(env.tab.rules[r]) <= env.rank[r]
  {
  }

  /** Without left recursion nullable ends, on every tree. */
  lemma {:induction false} CheckAuxEnds(env: Env, t: Tree, lo: nat, hi: nat) returns (fuel: nat)
    requires env.Valid() && env.tab.TreeOk(t, lo, hi)
    ensures CheckAuxRun(env.tab.rules, t, fuel) == Known(NullableIn(env.nul, t))
    decreases env.Left(t), t
  {
    hide Env.Valid;
    var tab := env.tab;
    fuel := 0;
    match t
    case TSeq(a, b) =>
      fuel := CheckAuxEnds(env, a, lo, hi);
      if NullableIn(env.nul, a) {
        var f2 := CheckAuxEnds(env, b, lo, hi);
        MoreFuel(tab.rules, a, fuel, fuel + f2);
        MoreFuel(tab.rules, b, f2, fuel + f2);
        fuel := fuel + f2;
      }
    case TChoice(a, b) =>
      fuel := CheckAuxEnds(env, b, lo, hi);
      if !NullableIn(env.nul, b) {
        var f2 := CheckAuxEnds(env, a, lo, hi);
        MoreFuel(tab.rules, b, fuel, fuel + f2);
        MoreFuel(tab.rules, a, f2, fuel + f2);
        fuel := fuel + f2;
      }
    case TCall(r) =>
      CalleeFacts(env, r);
      var f2 := CheckAuxEnds(env, tab.rules[r], tab.home[r], tab.home[r] + tab.size[r]);
      fuel := f2 + 1;
    case TGrammar(f, c) =>
      tab.GroupFacts(f, c);
      CalleeFacts(env, f);
      var f2 := CheckAuxEnds(env, tab.rules[f], tab.home[f], tab.home[f] + tab.size[f]);
      fuel := f2 + 1;
    case _ =>
  }

  /** So an accepted grammar that kept the flag is one on whose rules nullable ends, with the answers `nul`. */
  lemma AcceptedAnswers(tab: Table, nul: seq<bool>, r: nat)
    requires tab.Valid() && GroupsOk(tab) && NulOk(tab, nul) && FlagKept(tab, nul) && TableClosed(tab)
    requires r in tab.live && r < |tab.rules|
    ensures exists fuel: nat :: CheckAuxRun(tab.rules, tab.rules[r], fuel) == Known(nul[r])
  {
    hide VerifyRule, FlagKept, GroupsOk, TableClosed, Env.Valid, EnvOf, FinalNul, FinalRank, Table.TreeOk, CheckAuxRun, NullableIn;
    AcceptedIsRanked(tab, nul);
    GroupOf(tab, r);
    RunAnswers(tab, nul, tab.rules[r], tab.home[r], tab.home[r] + tab.size[r]);
  }

  lemma RunAnswers(tab: Table, nul: seq<bool>, t: Tree, lo: nat, hi: nat)
    requires tab.Valid() && NulOk(tab, nul) && |nul| == |tab.rules| && EnvOf(tab, nul).Valid() && tab.TreeOk(t, lo, hi)
    ensures exists fuel: nat :: CheckAuxRun(tab.rules, t, fuel) == Known(NullableIn(nul, t))
  {
    hide Env.Valid, Table.Valid, NulOk, Table.TreeOk, NullableIn, CheckAuxRun;
    var fuel := CheckAuxEnds(EnvOf(tab, nul), t, lo, hi);
    AnswerFits(tab, nul, t, lo, hi, fuel);
  }
}
