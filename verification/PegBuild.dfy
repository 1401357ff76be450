/**
 * Pattern constructors that simplify as they build (3rd/lpeg/lptree.c): sequence, choice,
 * difference, repetition, and the final right-association of sequences and choices. None
 * changes what a pattern means.
 */
module PegBuild {
  import opened PegSyntax
  import opened PegSemantics
  import opened PegAnalysis

  /** lp_seq: false x => false, x true => x, true x => x */
  function MkSeq(a: Tree, b: Tree): Tree {
    if a.TFalse? || b.TTrue? then a else if a.TTrue? then b else TSeq(a, b)
  }

  /** nofail while a pattern is built: a call of its own is still open and may fail; nested grammars are closed. */
  predicate NoFailOpen(env: Env, t: Tree)
    requires env.Valid()
  {
    match t
    case TRep(_) => true
    case TTrue => true
    case TAnd(p) => NoFailOpen(env, p)
    case TSeq(a, b) => NoFailOpen(env, a) && NoFailOpen(env, b)
    case TChoice(a, b) => NoFailOpen(env, b) || NoFailOpen(env, a)
    case TGrammar(f, _) => f < |env.tab.rules| && NoFail(env, env.tab.rules[f])
    case _ => false
  }

  /** What is said of open calls holds once they are closed. */
  lemma {:induction false} OpenIsCautious(env: Env, t: Tree)
    requires env.Valid() && NoFailOpen(env, t)
    ensures NoFail(env, t)
  {
    match t
    case TAnd(p) => OpenIsCautious(env, p);
    case TSeq(a, b) => OpenIsCautious(env, a); OpenIsCautious(env, b);
    case TChoice(a, b) => if NoFailOpen(env, b) { OpenIsCautious(env, b); } else { OpenIsCautious(env, a); }
    case _ =>
  }

  /** lp_choice: charsets merge; nofail / x => nofail; x / false => x; false / x => x */
  function MkChoice(env: Env, a: Tree, b: Tree): Tree
    requires env.Valid()
  {
    if IsCharset(a) && IsCharset(b) then TSet(ToCharset(a) + ToCharset(b))
    else if NoFailOpen(env, a) || b.TFalse? then a
    else if a.TFalse? then b
    else TChoice(a, b)
  }

  /** lp_sub: a - b == !b a; charsets subtract. */
  function MkSub(a: Tree, b: Tree): Tree {
    if IsCharset(a) && IsCharset(b) then TSet(ToCharset(a) - ToCharset(b)) else TSeq(TNot(b), a)
  }

  /** lp_star for n >= 0: n copies, then a repetition. */
  function MkAtLeast(p: Tree, n: nat): Tree {
    if n == 0 then TRep(p) else TSeq(p, MkAtLeast(p, n - 1))
  }

  /** lp_star for -n, n >= 1: nested optional copies. */
  function MkAtMost(p: Tree, n: nat): Tree
    requires n >= 1
  {
    if n == 1 then TChoice(p, TTrue) else TChoice(TSeq(p, MkAtMost(p, n - 1)), TTrue)
  }

  lemma MkSeqSame(rules: seq<Tree>, a: Tree, b: Tree, subj: seq<Byte>, s: nat, fuel: nat)
    ensures Eval(rules, MkSeq(a, b), subj, s, fuel) == Eval(rules, TSeq(a, b), subj, s, fuel)
  {
    if b.TTrue? { assert Eval(rules, TSeq(a, TTrue), subj, s, fuel) == Eval(rules, a, subj, s, fuel); }
  }

  lemma MkSubSame(rules: seq<Tree>, a: Tree, b: Tree, subj: seq<Byte>, s: nat, fuel: nat)
    ensures Eval(rules, MkSub(a, b), subj, s, fuel) == Eval(rules, TSeq(TNot(b), a), subj, s, fuel)
  {
    if IsCharset(a) && IsCharset(b) {
      assert Eval(rules, a, subj, s, fuel) == CharAt(subj, s, ToCharset(a));
      assert Eval(rules, b, subj, s, fuel) == CharAt(subj, s, ToCharset(b));
    }
  }

  lemma MkChoiceSame(env: Env, a: Tree, b: Tree, subj: seq<Byte>, s: nat, fuel: nat)
    requires env.Valid()
    ensures Eval(env.tab.rules, MkChoice(env, a, b), subj, s, fuel) == Eval(env.tab.rules, TChoice(a, b), subj, s, fuel)
  {
    if IsCharset(a) && IsCharset(b) {
      assert Eval(env.tab.rules, a, subj, s, fuel) == CharAt(subj, s, ToCharset(a));
      assert Eval(env.tab.rules, b, subj, s, fuel) == CharAt(subj, s, ToCharset(b));
    } else if NoFailOpen(env, a) {
      OpenIsCautious(env, a);
      NoFailSound(env, a, subj, s, fuel);
    }
  }

  /** Matching `p` greedily, but at most n times. */
  function AtMost(rules: seq<Tree>, p: Tree, n: nat, subj: seq<Byte>, s: nat, fuel: nat): Outcome {
    if n == 0 then Ok(s)
    else
      match Eval(rules, p, subj, s, fuel)
      case Ok(m) => AtMost(rules, p, n - 1, subj, m, fuel)
      case Fail => Ok(s)
      case Out => Out
  }

  /** Matching `p` exactly n times. */
  function Times(rules: seq<Tree>, p: Tree, n: nat, subj: seq<Byte>, s: nat, fuel: nat): Outcome {
    if n == 0 then Ok(s)
    else
      match Eval(rules, p, subj, s, fuel)
      case Ok(m) => Times(rules, p, n - 1, subj, m, fuel)
      case r => r
  }

  lemma {:induction false} MkAtMostMeans(rules: seq<Tree>, p: Tree, n: nat, subj: seq<Byte>, s: nat, fuel: nat)
    requires n >= 1
    ensures Eval(rules, MkAtMost(p, n), subj, s, fuel) == AtMost(rules, p, n, subj, s, fuel)
    decreases n
  {
    var r := Eval(rules, p, subj, s, fuel);
    if n > 1 && r.Ok? {
      MkAtMostMeans(rules, p, n - 1, subj, r.pos, fuel);
      AtMostNeverFails(rules, p, n - 1, subj, r.pos, fuel);
    } else if n == 1 && r.Ok? {
      assert AtMost(rules, p, 0, subj, r.pos, fuel) == Ok(r.pos);
    }
  }

  lemma {:induction false} AtMostNeverFails(rules: seq<Tree>, p: Tree, n: nat, subj: seq<Byte>, s: nat, fuel: nat)
    ensures !AtMost(rules, p, n, subj, s, fuel).Fail?
    decreases n
  {
    var r := Eval(rules, p, subj, s, fuel);
    if n > 0 && r.Ok? { AtMostNeverFails(rules, p, n - 1, subj, r.pos, fuel); }
  }

  lemma {:induction false} MkAtLeastMeans(rules: seq<Tree>, p: Tree, n: nat, subj: seq<Byte>, s: nat, fuel: nat)
    ensures var r := Times(rules, p, n, subj, s, fuel);
      Eval(rules, MkAtLeast(p, n), subj, s, fuel) == if r.Ok? then Eval(rules, TRep(p), subj, r.pos, fuel) else r
    decreases n
  {
    if n > 0 {
      var r := Eval(rules, p, subj, s, fuel);
      if r.Ok? { MkAtLeastMeans(rules, p, n - 1, subj, r.pos, fuel); }
    }
  }

  // ---------------------------------------------------------------- right association

  function SameTag(t: Tree, u: Tree): bool { (t.TSeq? && u.TSeq?) || (t.TChoice? && u.TChoice?) }

  /** Op (Op a b) c  =>  Op a (Op b c) */
  function Rotate(t: Tree): Tree
    requires (t.TSeq? || t.TChoice?) && SameTag(t, t.p1)
  {
    if t.TSeq? then TSeq(t.p1.p1, TSeq(t.p1.p2, t.p2)) else TChoice(t.p1.p1, TChoice(t.p1.p2, t.p2))
  }

  lemma RotateSame(rules: seq<Tree>, t: Tree, subj: seq<Byte>, s: nat, fuel: nat)
    requires (t.TSeq? || t.TChoice?) && SameTag(t, t.p1)
    ensures Eval(rules, Rotate(t), subj, s, fuel) == Eval(rules, t, subj, s, fuel)
  {
    if t.TSeq? {
      assert Rotate(t) == TSeq(t.p1.p1, TSeq(t.p1.p2, t.p2));
      var r := Eval(rules, t.p1.p1, subj, s, fuel);
    } else {
      assert Rotate(t) == TChoice(t.p1.p1, TChoice(t.p1.p2, t.p2));
    }
  }

  /** correctassociativity: rotate until the first part has another tag. */
  method CorrectAssociativity(tree: Tree) returns (t: Tree)
    requires tree.TSeq? || tree.TChoice?
    ensures (t.TSeq? <==> tree.TSeq?) && (t.TChoice? <==> tree.TChoice?)
    ensures !SameTag(t, t.p1)
    ensures forall rules, subj, s, fuel :: Eval(rules, t, subj, s, fuel) == Eval(rules, tree, subj, s, fuel)
  {
    t := tree;
    while SameTag(t, t.p1)
      invariant (t.TSeq? || t.TChoice?) && (t.TSeq? <==> tree.TSeq?)
      invariant forall rules, subj, s, fuel :: Eval(rules, t, subj, s, fuel) == Eval(rules, tree, subj, s, fuel)
      decreases t.p1
    {
      forall rules, subj, s, fuel ensures Eval(rules, Rotate(t), subj, s, fuel) == Eval(rules, tree, subj, s, fuel) {
        RotateSame(rules, t, subj, s, fuel);
      }
      t := Rotate(t);
    }
  }

  /** No sequence starts with a sequence, no choice with a choice. */
  predicate RightAssociated(t: Tree) {
    match t
    case TSeq(a, b) => !a.TSeq? && RightAssociated(a) && RightAssociated(b)
    case TChoice(a, b) => !a.TChoice? && RightAssociated(a) && RightAssociated(b)
    case TRep(p) => RightAssociated(p)
    case TNot(p) => RightAssociated(p)
    case TAnd(p) => RightAssociated(p)
    case TBehind(p, _) => RightAssociated(p)
    case _ => true
  }

  /** Number of nodes, which rotation keeps. */
  function Size(t: Tree): nat {
    match t
    case TSeq(a, b) => 1 + Size(a) + Size(b)
    case TChoice(a, b) => 1 + Size(a) + Size(b)
    case TRep(p) => 1 + Size(p)
    case TNot(p) => 1 + Size(p)
    case TAnd(p) => 1 + Size(p)
    case TBehind(p, _) => 1 + Size(p)
    case _ => 1
  }

  function HeadSize(t: Tree): nat {
    match t
    case TSeq(a, _) => Size(a)
    case TChoice(a, _) => Size(a)
    case _ => 0
  }

  lemma RotateSize(t: Tree)
    requires (t.TSeq? || t.TChoice?) && SameTag(t, t.p1)
    ensures Size(Rotate(t)) == Size(t) && HeadSize(Rotate(t)) < HeadSize(t)
  {
    assert Size(t) == 1 + (1 + Size(t.p1.p1) + Size(t.p1.p2)) + Size(t.p2);
    assert Size(Rotate(t).p2) == 1 + Size(t.p1.p2) + Size(t.p2);
  }

  /** finalfix, on a pattern whose calls are already closed. */
  function FinalFix(t: Tree): (u: Tree)
    ensures Size(u) == Size(t)
    decreases Size(t), HeadSize(t)
  {
    match t
    case TSeq(a, b) => if a.TSeq? then (RotateSize(t); FinalFix(Rotate(t))) else TSeq(FinalFix(a), FinalFix(b))
    case TChoice(a, b) => if a.TChoice? then (RotateSize(t); FinalFix(Rotate(t))) else TChoice(FinalFix(a), FinalFix(b))
    case TRep(p) => TRep(FinalFix(p))
    case TNot(p) => TNot(FinalFix(p))
    case TAnd(p) => TAnd(FinalFix(p))
    case TBehind(p, n) => TBehind(FinalFix(p), n)
    case _ => t
  }

  lemma {:induction false} FinalFixAssociates(t: Tree)
    ensures RightAssociated(FinalFix(t))
    ensures (FinalFix(t).TSeq? <==> t.TSeq?) && (FinalFix(t).TChoice? <==> t.TChoice?)
    decreases Size(t), HeadSize(t)
  {
    match t
    case TSeq(a, b) => if a.TSeq? { RotateSize(t); FinalFixAssociates(Rotate(t)); } else { FinalFixAssociates(a); FinalFixAssociates(b); }
    case TChoice(a, b) => if a.TChoice? { RotateSize(t); FinalFixAssociates(Rotate(t)); } else { FinalFixAssociates(a); FinalFixAssociates(b); }
    case TRep(p) => FinalFixAssociates(p);
    case TNot(p) => FinalFixAssociates(p);
    case TAnd(p) => FinalFixAssociates(p);
    case TBehind(p, _) => FinalFixAssociates(p);
    case _ =>
  }

  /** The fixed tree means the same, over the same rules. */
  lemma {:induction false} FinalFixSame(rules: seq<Tree>, t: Tree, subj: seq<Byte>, s: nat, fuel: nat)
    ensures Eval(rules, FinalFix(t), subj, s, fuel) == Eval(rules, t, subj, s, fuel)
    decreases fuel, Size(t), HeadSize(t)
  {
    match t
    case TSeq(a, b) =>
      if a.TSeq? { RotateSize(t); RotateSame(rules, t, subj, s, fuel); FinalFixSame(rules, Rotate(t), subj, s, fuel); }
      else {
        FinalFixSame(rules, a, subj, s, fuel);
        var r := Eval(rules, a, subj, s, fuel);
        if r.Ok? { FinalFixSame(rules, b, subj, r.pos, fuel); }
      }
    case TChoice(a, b) =>
      if a.TChoice? { RotateSize(t); RotateSame(rules, t, subj, s, fuel); FinalFixSame(rules, Rotate(t), subj, s, fuel); }
      else { FinalFixSame(rules, a, subj, s, fuel); FinalFixSame(rules, b, subj, s, fuel); }
    case TRep(p) =>
      FinalFixSame(rules, p, subj, s, fuel);
      var r := Eval(rules, p, subj, s, fuel);
      if r.Ok? && fuel > 0 { FinalFixSame(rules, t, subj, r.pos, fuel - 1); }
    case TNot(p) => FinalFixSame(rules, p, subj, s, fuel);
    case TAnd(p) => FinalFixSame(rules, p, subj, s, fuel);
    case TBehind(p, n) => if n <= s { FinalFixSame(rules, p, subj, s - n, fuel); }
    case _ =>
  }
}
