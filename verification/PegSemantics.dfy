/**
 * Big-step meaning of a pattern: where a match that starts at `s` ends, or that it fails.
 * `Eval` unfolds at most `fuel` nested calls and loop rounds and answers Out when that is
 * not enough; `Gives` is the meaning proper, free of fuel.
 */
module PegSemantics {
  import opened PegSyntax

  datatype Outcome = Ok(pos: nat) | Fail | Out

  function CharAt(subj: seq<Byte>, s: nat, cs: Charset): Outcome {
    if s < |subj| && subj[s] in cs then Ok(s + 1) else Fail
  }

  function Eval(rules: seq<Tree>, t: Tree, subj: seq<Byte>, s: nat, fuel: nat): Outcome
    decreases fuel, t
  {
    match t
    case TChar(c) => CharAt(subj, s, {c})
    case TSet(cs) => CharAt(subj, s, cs)
    case TAny => CharAt(subj, s, Full)
    case TTrue => Ok(s)
    case TFalse => Fail
    case TSeq(a, b) => (
      match Eval(rules, a, subj, s, fuel)
      case Ok(m) => Eval(rules, b, subj, m, fuel)
      case r => r
    )
    case TChoice(a, b) => (
      match Eval(rules, a, subj, s, fuel)
      case Fail => Eval(rules, b, subj, s, fuel)
      case r => r
    )
    case TNot(p) => (
      match Eval(rules, p, subj, s, fuel)
      case Ok(_) => Fail
      case Fail => Ok(s)
      case Out => Out
    )
    case TAnd(p) => (
      match Eval(rules, p, subj, s, fuel)
      case Ok(_) => Ok(s)
      case r => r
    )
    case TRep(p) => (
      match Eval(rules, p, subj, s, fuel)
      case Ok(m) => if fuel == 0 then Out else Eval(rules, t, subj, m, fuel - 1)
      case Fail => Ok(s)
      case Out => Out
    )
    case TBehind(p, n) =>
      if s < n then Fail
      else (
        match Eval(rules, p, subj, s - n, fuel)
        case Ok(_) => Ok(s)
        case r => r
      )
    case TCall(r) => if fuel == 0 || r >= |rules| then Out else Eval(rules, rules[r], subj, s, fuel - 1)
    case TGrammar(f, _) => if fuel == 0 || f >= |rules| then Out else Eval(rules, rules[f], subj, s, fuel - 1)
  }

  /** The match of `t` at `s` has the definite result `r`. */
  ghost predicate Gives(rules: seq<Tree>, t: Tree, subj: seq<Byte>, s: nat, r: Outcome) {
    r != Out && exists fuel: nat :: Eval(rules, t, subj, s, fuel) == r
  }

  lemma {:induction false} FuelMonotone(rules: seq<Tree>, t: Tree, subj: seq<Byte>, s: nat, fuel: nat, more: nat)
    requires Eval(rules, t, subj, s, fuel) != Out
    requires fuel <= more
    ensures Eval(rules, t, subj, s, more) == Eval(rules, t, subj, s, fuel)
    decreases fuel, t
  {
    match t
    case TSeq(a, b) =>
      FuelMonotone(rules, a, subj, s, fuel, more);
      var r := Eval(rules, a, subj, s, fuel);
      if r.Ok? { FuelMonotone(rules, b, subj, r.pos, fuel, more); }
    case TChoice(a, b) =>
      FuelMonotone(rules, a, subj, s, fuel, more);
      if Eval(rules, a, subj, s, fuel).Fail? { FuelMonotone(rules, b, subj, s, fuel, more); }
    case TNot(p) => FuelMonotone(rules, p, subj, s, fuel, more);
    case TAnd(p) => FuelMonotone(rules, p, subj, s, fuel, more);
    case TRep(p) =>
      FuelMonotone(rules, p, subj, s, fuel, more);
      var r := Eval(rules, p, subj, s, fuel);
      if r.Ok? { FuelMonotone(rules, t, subj, r.pos, fuel - 1, more - 1); }
    case TBehind(p, n) => if n <= s { FuelMonotone(rules, p, subj, s - n, fuel, more); }
    case TCall(r) => FuelMonotone(rules, rules[r], subj, s, fuel - 1, more - 1);
    case TGrammar(f, _) => FuelMonotone(rules, rules[f], subj, s, fuel - 1, more - 1);
    case _ =>
  }

  /** A pattern has at most one meaning at a position. */
  lemma GivesUnique(rules: seq<Tree>, t: Tree, subj: seq<Byte>, s: nat, r1: Outcome, r2: Outcome)
    requires Gives(rules, t, subj, s, r1) && Gives(rules, t, subj, s, r2)
    ensures r1 == r2
  {
    var f1: nat :| Eval(rules, t, subj, s, f1) == r1;
    var f2: nat :| Eval(rules, t, subj, s, f2) == r2;
    FuelMonotone(rules, t, subj, s, f1, f1 + f2);
    FuelMonotone(rules, t, subj, s, f2, f1 + f2);
  }

  /** A match ends inside the subject and never before its start. */
  lemma {:induction false} EvalBounds(rules: seq<Tree>, t: Tree, subj: seq<Byte>, s: nat, fuel: nat)
    requires s <= |subj|
    ensures Eval(rules, t, subj, s, fuel).Ok? ==> s <= Eval(rules, t, subj, s, fuel).pos <= |subj|
    decreases fuel, t
  {
    match t
    case TSeq(a, b) =>
      EvalBounds(rules, a, subj, s, fuel);
      var r := Eval(rules, a, subj, s, fuel);
      if r.Ok? { EvalBounds(rules, b, subj, r.pos, fuel); }
    case TChoice(a, b) =>
      EvalBounds(rules, a, subj, s, fuel);
      EvalBounds(rules, b, subj, s, fuel);
    case TRep(p) =>
      EvalBounds(rules, p, subj, s, fuel);
      var r := Eval(rules, p, subj, s, fuel);
      if r.Ok? && fuel > 0 { EvalBounds(rules, t, subj, r.pos, fuel - 1); }
    case TCall(r) => if fuel > 0 && r < |rules| { EvalBounds(rules, rules[r], subj, s, fuel - 1); }
    case TGrammar(f, _) => if fuel > 0 && f < |rules| { EvalBounds(rules, rules[f], subj, s, fuel - 1); }
    case _ =>
  }
}
