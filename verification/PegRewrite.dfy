/**
 * When may code be rewritten? A forward simulation between two programs over related
 * addresses, which also lets the rewritten program drop return frames that would only
 * return again.
 */
module PegRewrite {
  import opened PegSyntax
  import opened PegMachine

  type Rel = (int, int) -> bool

  /** Both instructions act alike, up to related addresses. */
  ghost predicate Match(rel: Rel, i: Instr, a: int, j: Instr, b: int) {
    match i
    case IEnd => j.IEnd?
    case IRet => j.IRet?
    case IFail => j.IFail?
    case IFailTwice => j.IFailTwice?
    case IAny => j.IAny? && rel(a + 1, b + 1)
    case IChar(c) => j == i && rel(a + 1, b + 1)
    case ISet(cs) => j == i && rel(a + 1, b + 1)
    case ISpan(cs) => j == i && rel(a + 1, b + 1)
    case IBehind(n) => j == i && rel(a + 1, b + 1)
    case ITestAny(off) => j.ITestAny? && rel(a + 1, b + 1) && rel(a + off, b + j.off)
    case ITestChar(c, off) => j.ITestChar? && j.c == c && rel(a + 1, b + 1) && rel(a + off, b + j.off)
    case ITestSet(cs, off) => j.ITestSet? && j.cs == cs && rel(a + 1, b + 1) && rel(a + off, b + j.off)
    case IChoice(off) => j.IChoice? && rel(a + 1, b + 1) && rel(a + off, b + j.off)
    case ICall(off) => j.ICall? && rel(a + 1, b + 1) && rel(a + off, b + j.off)
    case IJmp(off) => j.IJmp? && rel(a + off, b + j.off)
    case ICommit(off) => j.ICommit? && rel(a + off, b + j.off)
    case IPartialCommit(off) => j.IPartialCommit? && rel(a + off, b + j.off)
    case IBackCommit(off) => j.IBackCommit? && rel(a + off, b + j.off)
    case IOpenCall(r) => false
  }

  /** An open call against its two closed forms: a call, or a jump when the return may be skipped. */
  ghost predicate CallMatch(rel: Rel, skip: int -> bool, link: map<nat, int>, i: Instr, a: int, j: Instr, b: int) {
    && i.IOpenCall? && i.rule in link
    && match j
       case IOpenCall(r) => r == i.rule && rel(a + 1, b + 1) && rel(link[r], link[r])
       case ICall(off) => rel(a + 1, b + 1) && rel(link[i.rule], b + off)
       case IJmp(off) => skip(a + 1) && rel(link[i.rule], b + off)
       case _ => false
  }

  ghost predicate PairOk(rel: Rel, skip: int -> bool, c: Program, d: Program, a: int, b: int) {
    0 <= a < |c.code| ==>
      || (c.code[a].IJmp? && rel(a + c.code[a].off, b))
      || (0 <= b < |d.code| && Match(rel, c.code[a], a, d.code[b], b))
      || (0 <= b < |d.code| && CallMatch(rel, skip, c.link, c.code[a], a, d.code[b], b))
  }

  /** `rel` and `skip` relate every instruction of `c` to one of `d`. */
  ghost predicate Simulated(rel: Rel, skip: int -> bool, c: Program, d: Program) {
    && c.link == d.link
    && (forall a, b :: rel(a, b) ==> PairOk(rel, skip, c, d, a, b))
    && (forall p, b :: skip(p) && 0 <= b < |d.code| && d.code[b].IRet? ==> rel(p, b))
  }

  ghost predicate StackRel(rel: Rel, skip: int -> bool, k: Stack, m: Stack) {
    match k
    case Giveup => m.Giveup?
    case Choice(p, s, below) => m.Choice? && rel(p, m.p) && s == m.s && StackRel(rel, skip, below, m.below)
    case Ret(p, below) =>
      || (m.Ret? && rel(p, m.p) && StackRel(rel, skip, below, m.below))
      || (skip(p) && StackRel(rel, skip, below, m))
  }

  ghost predicate StateRel(rel: Rel, skip: int -> bool, u: State, v: State) {
    match u
    case Run(a, s, k) => v.Run? && rel(a, v.p) && s == v.s && StackRel(rel, skip, k, v.k)
    case Failing(k) => v.Failing? && StackRel(rel, skip, k, v.k)
    case Matched(e) => u == v
    case NoMatch => u == v
    case Stuck => true
  }

  /** One step of the original is zero or one step of the rewritten program. */
  lemma StepRel(rel: Rel, skip: int -> bool, c: Program, d: Program, subj: seq<Byte>, u: State, v: State)
    requires Simulated(rel, skip, c, d) && StateRel(rel, skip, u, v)
    ensures StateRel(rel, skip, Step(c, subj, u), v) || StateRel(rel, skip, Step(c, subj, u), Step(d, subj, v))
  {
    if u.Run? && 0 <= u.p < |c.code| { RunRel(rel, skip, c, d, subj, u, v); }
  }

  lemma RunRel(rel: Rel, skip: int -> bool, c: Program, d: Program, subj: seq<Byte>, u: State, v: State)
    requires Simulated(rel, skip, c, d) && StateRel(rel, skip, u, v) && u.Run? && 0 <= u.p < |c.code|
    ensures StateRel(rel, skip, Step(c, subj, u), v) || StateRel(rel, skip, Step(c, subj, u), Step(d, subj, v))
  {
    var a, b := u.p, v.p;
    var i := c.code[a];
    assert PairOk(rel, skip, c, d, a, b);
    if i.IJmp? && rel(a + i.off, b) {
      assert StateRel(rel, skip, Step(c, subj, u), v);
    } else if i.IRet? {
      ReturnRel(rel, skip, c, d, subj, u, v);
    } else if Match(rel, i, a, d.code[b], b) {
      MatchRel(rel, skip, c, d, subj, u, v);
    }
  }

  lemma ReturnRel(rel: Rel, skip: int -> bool, c: Program, d: Program, subj: seq<Byte>, u: State, v: State)
    requires Simulated(rel, skip, c, d) && StateRel(rel, skip, u, v) && u.Run? && 0 <= u.p < |c.code| && 0 <= v.p < |d.code|
    requires c.code[u.p].IRet? && d.code[v.p].IRet?
    ensures StateRel(rel, skip, Step(c, subj, u), v) || StateRel(rel, skip, Step(c, subj, u), Step(d, subj, v))
  {
    if u.k.Ret? && skip(u.k.p) && StackRel(rel, skip, u.k.below, v.k) {
      assert rel(u.k.p, v.p);
    }
  }

  lemma MatchRel(rel: Rel, skip: int -> bool, c: Program, d: Program, subj: seq<Byte>, u: State, v: State)
    requires StateRel(rel, skip, u, v) && u.Run? && 0 <= u.p < |c.code| && 0 <= v.p < |d.code|
    requires Match(rel, c.code[u.p], u.p, d.code[v.p], v.p) && !c.code[u.p].IRet?
    ensures StateRel(rel, skip, Step(c, subj, u), Step(d, subj, v))
  {
  }

  lemma {:induction false} StepsRel(rel: Rel, skip: int -> bool, c: Program, d: Program, subj: seq<Byte>, u: State, v: State, n: nat)
    requires Simulated(rel, skip, c, d) && StateRel(rel, skip, u, v)
    ensures exists m: nat :: StateRel(rel, skip, Steps(c, subj, u, n), Steps(d, subj, v, m))
    decreases n
  {
    if n == 0 {
      assert Steps(d, subj, v, 0) == v;
    } else {
      StepRel(rel, skip, c, d, subj, u, v);
      var u1 := Step(c, subj, u);
      if StateRel(rel, skip, u1, v) {
        StepsRel(rel, skip, c, d, subj, u1, v, n - 1);
      } else {
        StepsRel(rel, skip, c, d, subj, u1, Step(d, subj, v), n - 1);
        var m: nat :| StateRel(rel, skip, Steps(c, subj, u1, n - 1), Steps(d, subj, Step(d, subj, v), m));
        assert Steps(d, subj, v, m + 1) == Steps(d, subj, Step(d, subj, v), m);
      }
    }
  }

  /** The run of a program from its first instruction answers `r`. */
  ghost predicate Answers(g: Program, subj: seq<Byte>, s: nat, r: State) {
    (r.Matched? || r.NoMatch?) && Reaches(g, subj, Run(0, s, Giveup), r)
  }

  /** Every answer of `c` is an answer of `d`. */
  ghost predicate Preserves(c: Program, d: Program) {
    forall subj, s, r :: Answers(c, subj, s, r) ==> Answers(d, subj, s, r)
  }

  lemma SimulatedPreserves(rel: Rel, skip: int -> bool, c: Program, d: Program)
    requires Simulated(rel, skip, c, d) && rel(0, 0)
    ensures Preserves(c, d)
  {
    forall subj, s, r | Answers(c, subj, s, r) ensures Answers(d, subj, s, r) {
      var n: nat :| Steps(c, subj, Run(0, s, Giveup), n) == r;
      StepsRel(rel, skip, c, d, subj, Run(0, s, Giveup), Run(0, s, Giveup), n);
    }
  }

  lemma PreservesTrans(c: Program, d: Program, e: Program)
    requires Preserves(c, d) && Preserves(d, e)
    ensures Preserves(c, e)
  {
  }
}
