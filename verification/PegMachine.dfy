/**
 * The virtual machine that runs compiled patterns (3rd/lpeg/lpvm.c, function match), one
 * instruction per step. Offsets are relative to the instruction, as in the source; operands
 * are part of the instruction, so every instruction occupies one slot.
 */
module PegMachine {
  import opened PegSyntax

  datatype Instr =
    | IAny
    | IChar(c: Byte)
    | ISet(cs: Charset)
    | ITestAny(off: int)
    | ITestChar(c: Byte, off: int)
    | ITestSet(cs: Charset, off: int)
    | ISpan(cs: Charset)
    | IBehind(n: nat)
    | IRet
    | IEnd
    | IChoice(off: int)
    | IJmp(off: int)
    | ICall(off: int)
    | IOpenCall(rule: nat)
    | ICommit(off: int)
    | IPartialCommit(off: int)
    | IBackCommit(off: int)
    | IFailTwice
    | IFail

  /** Instructions with a label. */
  predicate HasLabel(i: Instr) {
    i.ITestAny? || i.ITestChar? || i.ITestSet? || i.IChoice? || i.IJmp? || i.ICall? || i.ICommit?
    || i.IPartialCommit? || i.IBackCommit?
  }

  /** setoffset: the same instruction with another label. */
  function WithOff(i: Instr, off: int): (j: Instr)
    requires HasLabel(i)
    ensures HasLabel(j) && j.off == off
  {
    match i
    case ITestAny(_) => ITestAny(off)
    case ITestChar(c, _) => ITestChar(c, off)
    case ITestSet(cs, _) => ITestSet(cs, off)
    case IChoice(_) => IChoice(off)
    case IJmp(_) => IJmp(off)
    case ICall(_) => ICall(off)
    case ICommit(_) => ICommit(off)
    case IPartialCommit(_) => IPartialCommit(off)
    case IBackCommit(_) => IBackCommit(off)
  }

  /** The call/backtrack stack: return addresses, and choices with their saved position. */
  datatype Stack =
    | Giveup
    | Ret(p: int, below: Stack)
    | Choice(p: int, s: nat, below: Stack)

  datatype State =
    | Run(p: int, s: nat, k: Stack)
    | Failing(k: Stack)              // at label `fail`: pop to the nearest choice
    | Matched(end: nat)
    | NoMatch
    | Stuck                          // an assertion of the machine is violated

  /** Machine code with the positions of rules, for calls that are still open. */
  datatype Program = Program(code: seq<Instr>, link: map<nat, int>)

  predicate Next(subj: seq<Byte>, s: nat, cs: Charset) { s < |subj| && subj[s] in cs }

  /** End of the longest run of characters of `cs` from `s`. */
  function Span(subj: seq<Byte>, s: nat, cs: Charset): nat
    decreases |subj| - s
  {
    if Next(subj, s, cs) then Span(subj, s + 1, cs) else s
  }

  function Step(g: Program, subj: seq<Byte>, st: State): State {
    match st
    case Failing(k) => (
      match k
      case Giveup => NoMatch
      case Ret(_, below) => Failing(below)
      case Choice(p, s, below) => Run(p, s, below)
    )
    case Run(p, s, k) => if 0 <= p < |g.code| then Execute(g, subj, p, s, k) else Stuck
    case _ => st
  }

  function Execute(g: Program, subj: seq<Byte>, p: int, s: nat, k: Stack): State
    requires 0 <= p < |g.code|
  {
    match g.code[p]
    case IEnd => if k.Giveup? then Matched(s) else Stuck
    case IRet => if k.Ret? then Run(k.p, s, k.below) else Stuck
    case IAny => if s < |subj| then Run(p + 1, s + 1, k) else Failing(k)
    case IChar(c) => if Next(subj, s, {c}) then Run(p + 1, s + 1, k) else Failing(k)
    case ISet(cs) => if Next(subj, s, cs) then Run(p + 1, s + 1, k) else Failing(k)
    case ITestAny(off) => if s < |subj| then Run(p + 1, s, k) else Run(p + off, s, k)
    case ITestChar(c, off) => if Next(subj, s, {c}) then Run(p + 1, s, k) else Run(p + off, s, k)
    case ITestSet(cs, off) => if Next(subj, s, cs) then Run(p + 1, s, k) else Run(p + off, s, k)
    case IBehind(n) => if n > s then Failing(k) else Run(p + 1, s - n, k)
    case ISpan(cs) => Run(p + 1, Span(subj, s, cs), k)
    case IJmp(off) => Run(p + off, s, k)
    case IChoice(off) => Run(p + 1, s, Choice(p + off, s, k))
    case ICall(off) => Run(p + off, s, Ret(p + 1, k))
    case IOpenCall(r) => if r in g.link then Run(g.link[r], s, Ret(p + 1, k)) else Stuck
    case ICommit(off) => if k.Choice? then Run(p + off, s, k.below) else Stuck
    case IPartialCommit(off) => if k.Choice? then Run(p + off, s, k.(s := s)) else Stuck
    case IBackCommit(off) => if k.Choice? then Run(p + off, k.s, k.below) else Stuck
    case IFailTwice => if k.Choice? then Failing(k.below) else Stuck
    case IFail => Failing(k)
  }

  function Steps(g: Program, subj: seq<Byte>, st: State, n: nat): State
    decreases n
  {
    if n == 0 then st else Steps(g, subj, Step(g, subj, st), n - 1)
  }

  ghost predicate Reaches(g: Program, subj: seq<Byte>, a: State, b: State) {
    exists n: nat :: Steps(g, subj, a, n) == b
  }

  lemma {:induction false} StepsAdd(g: Program, subj: seq<Byte>, st: State, m: nat, n: nat)
    ensures Steps(g, subj, st, m + n) == Steps(g, subj, Steps(g, subj, st, m), n)
    decreases m
  {
    if m > 0 { StepsAdd(g, subj, Step(g, subj, st), m - 1, n); }
  }

  lemma ReachesTrans(g: Program, subj: seq<Byte>, a: State, b: State, c: State)
    requires Reaches(g, subj, a, b) && Reaches(g, subj, b, c)
    ensures Reaches(g, subj, a, c)
  {
    var m: nat :| Steps(g, subj, a, m) == b;
    var n: nat :| Steps(g, subj, b, n) == c;
    StepsAdd(g, subj, a, m, n);
  }

  lemma ReachesSelf(g: Program, subj: seq<Byte>, a: State)
    ensures Reaches(g, subj, a, a)
  {
    assert Steps(g, subj, a, 0) == a;
  }

  lemma ReachesStep(g: Program, subj: seq<Byte>, a: State, b: State)
    requires Reaches(g, subj, Step(g, subj, a), b)
    ensures Reaches(g, subj, a, b)
  {
    var n: nat :| Steps(g, subj, Step(g, subj, a), n) == b;
    assert Steps(g, subj, a, n + 1) == b;
  }

  lemma ReachesOne(g: Program, subj: seq<Byte>, a: State, b: State)
    requires Step(g, subj, a) == b
    ensures Reaches(g, subj, a, b)
  {
    ReachesSelf(g, subj, b);
    ReachesStep(g, subj, a, b);
  }
}
