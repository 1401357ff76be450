/**
 * The analyses the code generator relies on (3rd/lpeg/lpcode.c): nullable and nofail
 * (checkaux), fixedlen, getfirst, headfail, needfollow, and their soundness with respect
 * to the meaning of patterns.
 */
module PegAnalysis {
  import opened PegSyntax
  import opened PegSemantics

  datatype Predicate = PEnullable | PEnofail

  /** Nullability of a tree, given the nullability of the rules. */
  function NullableIn(nul: seq<bool>, t: Tree): bool {
    match t
    case TRep(_) => true
    case TTrue => true
    case TNot(_) => true
    case TBehind(_, _) => true
    case TAnd(_) => true
    case TSeq(a, b) => NullableIn(nul, a) && NullableIn(nul, b)
    case TChoice(a, b) => NullableIn(nul, a) || NullableIn(nul, b)
    case TCall(r) => r < |nul| && nul[r]
    case TGrammar(f, _) => f < |nul| && nul[f]
    case _ => false
  }

  /** One more than the largest rank of a rule that `t` can enter before consuming anything. */
  function LeftRank(nul: seq<bool>, rank: seq<nat>, t: Tree): nat {
    match t
    case TRep(p) => LeftRank(nul, rank, p)
    case TNot(p) => LeftRank(nul, rank, p)
    case TAnd(p) => LeftRank(nul, rank, p)
    case TBehind(p, _) => LeftRank(nul, rank, p)
    case TSeq(a, b) =>
      if NullableIn(nul, a) then Max(LeftRank(nul, rank, a), LeftRank(nul, rank, b)) else LeftRank(nul, rank, a)
    case TChoice(a, b) => Max(LeftRank(nul, rank, a), LeftRank(nul, rank, b))
    case TCall(r) => if r < |rank| then rank[r] + 1 else 0
    case TGrammar(f, _) => if f < |rank| then rank[f] + 1 else 0
    case _ => 0
  }

  /**
   * A rule table together with the evidence that it is not left recursive: the nullability
   * of each rule and a rank that every left call decreases.
   */
  datatype Env = Env(tab: Table, nul: seq<bool>, rank: seq<nat>) {
    predicate Valid() {
      && tab.Valid()
      && |nul| == |rank| == |tab.rules|
      && forall r {:trigger tab.rules[r]} :: 0 <= r < |tab.rules| ==>
        && nul[r] == NullableIn(nul, tab.rules[r])
        && LeftRank(nul, rank, tab.rules[r]) <= rank[r]
    }

    function Left(t: Tree): nat { LeftRank(nul, rank, t) }
  }

  /** checkaux: how a pattern behaves on the empty string. */
  function CheckAux(env: Env, t: Tree, pred: Predicate): (r: bool)
    requires env.Valid()
    ensures pred.PEnullable? ==> r == NullableIn(env.nul, t)
    ensures r ==> NullableIn(env.nul, t)
    decreases env.Left(t), t
  {
    match t
    case TChar(_) => false
    case TSet(_) => false
    case TAny => false
    case TFalse => false
    case TRep(_) => true
    case TTrue => true
    case TNot(_) => pred.PEnullable?
    case TBehind(_, _) => pred.PEnullable?
    case TAnd(p) => pred.PEnullable? || CheckAux(env, p, pred)
    case TSeq(a, b) => CheckAux(env, a, pred) && CheckAux(env, b, pred)
    case TChoice(a, b) => CheckAux(env, b, pred) || CheckAux(env, a, pred)
    case TCall(r) => r < |env.tab.rules| && CheckAux(env, env.tab.rules[r], pred)
    case TGrammar(f, _) => f < |env.tab.rules| && CheckAux(env, env.tab.rules[f], pred)
  }

  predicate Nullable(env: Env, t: Tree)
    requires env.Valid()
  {
    CheckAux(env, t, PEnullable)
  }

  predicate NoFail(env: Env, t: Tree)
    requires env.Valid()
  {
    CheckAux(env, t, PEnofail)
  }

  /**
   * fixedlen: the number of characters every match consumes, or -1. A rule that is already
   * being measured (not in `avail`) counts as variable, which stops the recursion.
   */
  function FixedLen(rules: seq<Tree>, t: Tree, avail: set<nat>): int
    decreases avail, t
  {
    match t
    case TChar(_) => 1
    case TSet(_) => 1
    case TAny => 1
    case TFalse => 0
    case TTrue => 0
    case TNot(_) => 0
    case TAnd(_) => 0
    case TBehind(_, _) => 0
    case TRep(_) => -1
    case TCall(r) => if r in avail && r < |rules| then FixedLen(rules, rules[r], avail - {r}) else -1
    case TGrammar(f, _) => if f in avail && f < |rules| then FixedLen(rules, rules[f], avail - {f}) else -1
    case TSeq(a, b) =>
      var n1 := FixedLen(rules, a, avail);
      if n1 < 0 then -1
      else
        var n2 := FixedLen(rules, b, avail);
        if n2 < 0 then -1 else n1 + n2
    case TChoice(a, b) =>
      var n1 := FixedLen(rules, a, avail);
      var n2 := FixedLen(rules, b, avail);
      if n1 != n2 || n1 < 0 then -1 else n1
  }

  function AllRules(rules: seq<Tree>): set<nat> { set r: nat {:trigger rules[r]} | 0 <= r < |rules| }

  function Fixed(rules: seq<Tree>, t: Tree): int { FixedLen(rules, t, AllRules(rules)) }

  /** tocharset: the set matched by a single-character pattern. */
  predicate IsCharset(t: Tree) { t.TChar? || t.TSet? || t.TAny? }

  function ToCharset(t: Tree): Charset
    requires IsCharset(t)
  {
    match t
    case TChar(c) => {c}
    case TSet(cs) => cs
    case TAny => Full
  }

  /** First set together with the flag saying the pattern may accept the empty string. */
  datatype First = First(cs: Charset, e: bool)

  function GetFirst(env: Env, t: Tree, follow: Charset): First
    requires env.Valid()
    decreases env.Left(t), t
  {
    match t
    case TChar(_) => First(ToCharset(t), false)
    case TSet(_) => First(ToCharset(t), false)
    case TAny => First(ToCharset(t), false)
    case TTrue => First(follow, true)
    case TFalse => First({}, false)
    case TChoice(a, b) =>
      var f1 := GetFirst(env, a, follow);
      var f2 := GetFirst(env, b, follow);
      First(f1.cs + f2.cs, f1.e || f2.e)
    case TSeq(a, b) =>
      if !Nullable(env, a) then GetFirst(env, a, Full)
      else
        var f2 := GetFirst(env, b, follow);
        var f1 := GetFirst(env, a, f2.cs);
        First(f1.cs, f1.e && f2.e)
    case TRep(p) => First(GetFirst(env, p, follow).cs + follow, true)
    case TGrammar(f, _) => if f < |env.tab.rules| then GetFirst(env, env.tab.rules[f], follow) else First(follow, true)
    case TCall(r) => if r < |env.tab.rules| then GetFirst(env, env.tab.rules[r], follow) else First(follow, true)
    case TAnd(p) =>
      var f := GetFirst(env, p, follow);
      First(f.cs * follow, f.e)
    case TNot(p) => if IsCharset(p) then First(Full - ToCharset(p), true) else First(follow, true)
    case TBehind(_, _) => First(follow, true)
  }

  /** headfail: the pattern can fail only depending on the next character. */
  predicate HeadFail(env: Env, t: Tree)
    requires env.Valid()
    decreases env.Left(t), t
  {
    match t
    case TChar(_) => true
    case TSet(_) => true
    case TAny => true
    case TFalse => true
    case TTrue => false
    case TRep(_) => false
    case TNot(_) => false
    case TBehind(_, _) => false
    case TGrammar(f, _) => f < |env.tab.rules| && HeadFail(env, env.tab.rules[f])
    case TAnd(p) => HeadFail(env, p)
    case TCall(r) => r < |env.tab.rules| && HeadFail(env, env.tab.rules[r])
    case TSeq(a, b) => NoFail(env, b) && HeadFail(env, a)
    case TChoice(a, b) => HeadFail(env, a) && HeadFail(env, b)
  }

  predicate NeedFollow(t: Tree) {
    match t
    case TChoice(_, _) => true
    case TRep(_) => true
    case TSeq(_, b) => NeedFollow(b)
    case _ => false
  }

  /** What the constructors and checkloops guarantee of each node. */
  predicate NodesOk(env: Env, t: Tree)
    requires env.Valid()
  {
    match t
    case TRep(p) => !Nullable(env, p) && NodesOk(env, p)
    case TSeq(a, b) => NodesOk(env, a) && NodesOk(env, b)
    case TChoice(a, b) => NodesOk(env, a) && NodesOk(env, b)
    case TNot(p) => NodesOk(env, p)
    case TAnd(p) => NodesOk(env, p)
    case TBehind(p, n) => Fixed(env.tab.rules, p) == n <= MAXBEHIND && NoCalls(p) && NodesOk(env, p)
    case _ => true
  }

  /** An environment whose live rules passed the loop check. */
  predicate Sound(env: Env) {
    && env.Valid()
    && forall r :: r in env.tab.live && r < |env.tab.rules| ==> NodesOk(env, env.tab.rules[r])
  }

  // ---------------------------------------------------------------- soundness

  lemma {:induction false} NullableSound(env: Env, t: Tree, subj: seq<Byte>, s: nat, fuel: nat)
    requires env.Valid() && s <= |subj|
    requires Eval(env.tab.rules, t, subj, s, fuel) == Ok(s)
    ensures Nullable(env, t)
    decreases fuel, t
  {
    match t
    case TSeq(a, b) =>
      EvalBounds(env.tab.rules, a, subj, s, fuel);
      var r := Eval(env.tab.rules, a, subj, s, fuel);
      EvalBounds(env.tab.rules, b, subj, r.pos, fuel);
      NullableSound(env, a, subj, s, fuel);
      NullableSound(env, b, subj, s, fuel);
    case TChoice(a, b) =>
      if Eval(env.tab.rules, a, subj, s, fuel).Ok? { NullableSound(env, a, subj, s, fuel); }
      else { NullableSound(env, b, subj, s, fuel); }
    case TCall(r) => NullableSound(env, env.tab.rules[r], subj, s, fuel - 1);
    case TGrammar(f, _) => NullableSound(env, env.tab.rules[f], subj, s, fuel - 1);
    case _ =>
  }

  lemma {:induction false} NoFailSound(env: Env, t: Tree, subj: seq<Byte>, s: nat, fuel: nat)
    requires env.Valid() && NoFail(env, t)
    ensures !Eval(env.tab.rules, t, subj, s, fuel).Fail?
    decreases fuel, t
  {
    match t
    case TSeq(a, b) =>
      NoFailSound(env, a, subj, s, fuel);
      var r := Eval(env.tab.rules, a, subj, s, fuel);
      if r.Ok? { NoFailSound(env, b, subj, r.pos, fuel); }
    case TChoice(a, b) =>
      if NoFail(env, a) { NoFailSound(env, a, subj, s, fuel); }
      else { NoFailSound(env, b, subj, s, fuel); }
    case TAnd(p) => NoFailSound(env, p, subj, s, fuel);
    case TRep(p) =>
      var r := Eval(env.tab.rules, p, subj, s, fuel);
      if r.Ok? && fuel > 0 { NoFailSound(env, t, subj, r.pos, fuel - 1); }
    case TCall(r) => if fuel > 0 { NoFailSound(env, env.tab.rules[r], subj, s, fuel - 1); }
    case TGrammar(f, _) => if fuel > 0 { NoFailSound(env, env.tab.rules[f], subj, s, fuel - 1); }
    case _ =>
  }

  lemma {:induction false} FixedLenSound(rules: seq<Tree>, t: Tree, avail: set<nat>, subj: seq<Byte>, s: nat, fuel: nat)
    requires FixedLen(rules, t, avail) >= 0
    ensures var r := Eval(rules, t, subj, s, fuel); r.Ok? ==> r.pos == s + FixedLen(rules, t, avail)
    decreases fuel, t
  {
    match t
    case TSeq(a, b) =>
      FixedLenSound(rules, a, avail, subj, s, fuel);
      var r := Eval(rules, a, subj, s, fuel);
      if r.Ok? { FixedLenSound(rules, b, avail, subj, r.pos, fuel); }
    case TChoice(a, b) =>
      FixedLenSound(rules, a, avail, subj, s, fuel);
      FixedLenSound(rules, b, avail, subj, s, fuel);
    case TCall(r) => if fuel > 0 { FixedLenSound(rules, rules[r], avail - {r}, subj, s, fuel - 1); }
    case TGrammar(f, _) => if fuel > 0 { FixedLenSound(rules, rules[f], avail - {f}, subj, s, fuel - 1); }
    case _ =>
  }

  /**
   * First sets. When the next character is outside the first set the pattern fails, or it
   * matches without consuming and that character is outside the follow set as well; when the
   * flag is clear the pattern fails at the end of the subject.
   */
  lemma {:induction false} FirstSound(env: Env, t: Tree, follow: Charset, subj: seq<Byte>, s: nat, fuel: nat)
    requires env.Valid() && s <= |subj|
    ensures var f := GetFirst(env, t, follow); var r := Eval(env.tab.rules, t, subj, s, fuel);
      && (r.Ok? && s < |subj| && subj[s] !in f.cs ==> r.pos == s && subj[s] !in follow)
      && (r.Ok? && s == |subj| ==> f.e)
    decreases fuel, t
  {
    match t
    case TSeq(a, b) =>
      var r := Eval(env.tab.rules, a, subj, s, fuel);
      EvalBounds(env.tab.rules, a, subj, s, fuel);
      if r.Ok? {
        if !Nullable(env, a) {
          FirstSound(env, a, Full, subj, s, fuel);
          if r.pos == s { NullableSound(env, a, subj, s, fuel); }
        } else {
          FirstSound(env, a, GetFirst(env, b, follow).cs, subj, s, fuel);
          FirstSound(env, b, follow, subj, r.pos, fuel);
        }
      }
    case TChoice(a, b) =>
      FirstSound(env, a, follow, subj, s, fuel);
      FirstSound(env, b, follow, subj, s, fuel);
    case TRep(p) =>
      FirstSound(env, p, follow, subj, s, fuel);
      var r := Eval(env.tab.rules, p, subj, s, fuel);
      EvalBounds(env.tab.rules, p, subj, s, fuel);
      if r.Ok? && fuel > 0 { FirstSound(env, t, follow, subj, r.pos, fuel - 1); }
    case TAnd(p) => FirstSound(env, p, follow, subj, s, fuel);
    case TNot(p) =>
    case TCall(r) => if fuel > 0 && r < |env.tab.rules| { FirstSound(env, env.tab.rules[r], follow, subj, s, fuel - 1); }
    case TGrammar(f, _) => if fuel > 0 && f < |env.tab.rules| { FirstSound(env, env.tab.rules[f], follow, subj, s, fuel - 1); }
    case _ =>
  }

  /** A pattern that cannot fail excludes no next character when nothing is known of what follows. */
  lemma {:induction false} NoFailFirst(env: Env, t: Tree)
    requires env.Valid() && NoFail(env, t)
    ensures GetFirst(env, t, Full).cs == Full
    decreases env.Left(t), t
  {
    match t
    case TSeq(a, b) => NoFailFirst(env, b); NoFailFirst(env, a);
    case TChoice(a, b) => if NoFail(env, a) { NoFailFirst(env, a); } else { NoFailFirst(env, b); }
    case TAnd(p) => NoFailFirst(env, p);
    case TCall(r) => NoFailFirst(env, env.tab.rules[r]);
    case TGrammar(f, _) => NoFailFirst(env, env.tab.rules[f]);
    case _ =>
  }

  lemma {:induction false} HeadFailNotEmpty(env: Env, t: Tree, follow: Charset)
    requires env.Valid() && HeadFail(env, t)
    ensures !GetFirst(env, t, follow).e
    decreases env.Left(t), t
  {
    match t
    case TSeq(a, b) =>
      if !Nullable(env, a) { HeadFailNotEmpty(env, a, Full); }
      else { HeadFailNotEmpty(env, a, GetFirst(env, b, follow).cs); }
    case TChoice(a, b) => HeadFailNotEmpty(env, a, follow); HeadFailNotEmpty(env, b, follow);
    case TAnd(p) => HeadFailNotEmpty(env, p, follow);
    case TCall(r) => HeadFailNotEmpty(env, env.tab.rules[r], follow);
    case TGrammar(f, _) => HeadFailNotEmpty(env, env.tab.rules[f], follow);
    case _ =>
  }

  /** A head-fail pattern matches whenever the next character is in its first set. */
  lemma {:induction false} HeadFailMatches(env: Env, t: Tree, subj: seq<Byte>, s: nat, fuel: nat)
    requires env.Valid() && HeadFail(env, t)
    requires s < |subj| && subj[s] in GetFirst(env, t, Full).cs
    ensures !Eval(env.tab.rules, t, subj, s, fuel).Fail?
    decreases fuel, t
  {
    match t
    case TSeq(a, b) =>
      NoFailFirst(env, b);
      HeadFailMatches(env, a, subj, s, fuel);
      var r := Eval(env.tab.rules, a, subj, s, fuel);
      if r.Ok? { NoFailSound(env, b, subj, r.pos, fuel); }
    case TChoice(a, b) =>
      if subj[s] in GetFirst(env, a, Full).cs { HeadFailMatches(env, a, subj, s, fuel); }
      else { HeadFailMatches(env, b, subj, s, fuel); }
    case TAnd(p) => HeadFailMatches(env, p, subj, s, fuel);
    case TCall(r) => if fuel > 0 { HeadFailMatches(env, env.tab.rules[r], subj, s, fuel - 1); }
    case TGrammar(f, _) => if fuel > 0 { HeadFailMatches(env, env.tab.rules[f], subj, s, fuel - 1); }
    case _ =>
  }

  /** A head-fail pattern succeeds exactly when the next character is in its first set. */
  lemma HeadFailExact(env: Env, t: Tree, subj: seq<Byte>, s: nat, fuel: nat)
    requires env.Valid() && HeadFail(env, t) && s <= |subj|
    requires Eval(env.tab.rules, t, subj, s, fuel) != Out
    ensures Eval(env.tab.rules, t, subj, s, fuel).Ok? <==> s < |subj| && subj[s] in GetFirst(env, t, Full).cs
  {
    FirstSound(env, t, Full, subj, s, fuel);
    HeadFailNotEmpty(env, t, Full);
    if s < |subj| && subj[s] in GetFirst(env, t, Full).cs { HeadFailMatches(env, t, subj, s, fuel); }
  }
}
