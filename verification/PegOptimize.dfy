/**
 * The two passes over finished code (3rd/lpeg/lpcode.c): correctcalls, which closes open
 * calls and turns a call followed by a return into a jump, and peephole, which threads jumps.
 * Both patch the code in place and keep every answer of the machine.
 */
module PegOptimize {
  import opened PegMachine
  import opened PegRewrite

  /** Following k jumps from a leads to b. */
  predicate Chain(c: seq<Instr>, a: int, b: int, k: nat)
    decreases k
  {
    if k == 0 then a == b
    else 0 <= a < |c| && c[a].IJmp? && Chain(c, a + c[a].off, b, k - 1)
  }

  ghost predicate JumpsTo(c: seq<Instr>, a: int, b: int) {
    exists k: nat :: Chain(c, a, b, k)
  }

  lemma JumpsSelf(c: seq<Instr>, a: int)
    ensures JumpsTo(c, a, a)
  {
    assert Chain(c, a, a, 0);
  }

  /** A chain that has not arrived goes through a jump. */
  lemma JumpsFirst(c: seq<Instr>, a: int, b: int)
    requires JumpsTo(c, a, b) && a != b
    ensures 0 <= a < |c| && c[a].IJmp? && JumpsTo(c, a + c[a].off, b)
  {
    var k: nat :| Chain(c, a, b, k);
    assert Chain(c, a + c[a].off, b, k - 1);
  }

  lemma {:induction false} JumpsAppend(c: seq<Instr>, a: int, b: int, k: nat)
    requires Chain(c, a, b, k) && 0 <= b < |c| && c[b].IJmp?
    ensures Chain(c, a, b + c[b].off, k + 1)
    decreases k
  {
    if k > 0 { JumpsAppend(c, a + c[a].off, b, k - 1); }
  }

  /** All labels are addresses; jumps, and open calls read as jumps, descend in `pot`. */
  predicate WellFounded(g: Program, pot: seq<nat>) {
    && |pot| == |g.code|
    && (forall r :: r in g.link ==> 0 <= g.link[r] < |g.code|)
    && forall i {:trigger g.code[i]} :: 0 <= i < |g.code| ==>
      && (HasLabel(g.code[i]) ==> 0 <= i + g.code[i].off < |g.code|)
      && (g.code[i].IJmp? ==> pot[i + g.code[i].off] < pot[i])
      && (g.code[i].IOpenCall? ==> i + 1 < |g.code| && g.code[i].rule in g.link && pot[g.link[g.code[i].rule]] < pot[i])
  }

  predicate NoOpenCalls(c: seq<Instr>) {
    forall i :: 0 <= i < |c| ==> !c[i].IOpenCall?
  }

  lemma {:induction false} ChainDescends(g: Program, pot: seq<nat>, a: int, b: int, k: nat)
    requires WellFounded(g, pot) && Chain(g.code, a, b, k) && 0 <= a < |g.code|
    ensures 0 <= b < |g.code| && pot[b] + k <= pot[a]
    decreases k
  {
    if k > 0 { ChainDescends(g, pot, a + g.code[a].off, b, k - 1); }
  }

  lemma JumpsDescend(g: Program, pot: seq<nat>, a: int, b: int)
    requires WellFounded(g, pot) && JumpsTo(g.code, a, b) && 0 <= a < |g.code|
    ensures 0 <= b < |g.code| && pot[b] <= pot[a]
  {
    var k: nat :| Chain(g.code, a, b, k);
    ChainDescends(g, pot, a, b, k);
  }

  /** finaltarget: the chase of jumps ends, at an instruction that is no jump. */
  method FinalTarget(code: array<Instr>, start: int, ghost link: map<nat, int>, ghost pot: seq<nat>) returns (i: int)
    requires WellFounded(Program(code[..], link), pot) && 0 <= start < code.Length
    ensures 0 <= i < code.Length && !code[i].IJmp? && JumpsTo(code[..], start, i)
  {
    i := start;
    ghost var k: nat := 0;
    while code[i].IJmp?
      invariant 0 <= i < code.Length && Chain(code[..], start, i, k)
      decreases pot[i]
    {
      JumpsAppend(code[..], start, i, k);
      i := i + code[i].off;
      k := k + 1;
    }
  }

  // ---------------------------------------------------------------- single rewrites

  /** Aiming a label at the end of the chain of jumps it starts. */
  lemma RelabelPreserves(c: seq<Instr>, link: map<nat, int>, i: nat, off: int)
    requires i < |c| && HasLabel(c[i]) && NoOpenCalls(c)
    requires JumpsTo(c, i + c[i].off, i + off)
    ensures Preserves(Program(c, link), Program(c[i := WithOff(c[i], off)], link))
  {
    var d := c[i := WithOff(c[i], off)];
    ghost var rel: Rel := (a: int, b: int) => JumpsTo(c, a, b);
    var skip := (p: int) => false;
    forall a, b | rel(a, b) ensures PairOk(rel, skip, Program(c, link), Program(d, link), a, b) {
      if a != b { JumpsFirst(c, a, b); }
      else if 0 <= a < |c| {
        JumpsSelf(c, a + 1);
        if HasLabel(c[a]) { JumpsSelf(c, a + c[a].off); }
      }
    }
    JumpsSelf(c, 0);
    SimulatedPreserves(rel, skip, Program(c, link), Program(d, link));
  }

  /** `x` at `i` does what the instruction at `ft` does. */
  ghost predicate CopyOf(c: seq<Instr>, ft: int, x: Instr, i: int) {
    && 0 <= ft < |c|
    && match c[ft]
       case IRet => x == c[ft]
       case IFail => x == c[ft]
       case IFailTwice => x == c[ft]
       case IEnd => x == c[ft]
       case ICommit(off) => x.ICommit? && JumpsTo(c, ft + off, i + x.off)
       case IPartialCommit(off) => x.IPartialCommit? && JumpsTo(c, ft + off, i + x.off)
       case IBackCommit(off) => x.IBackCommit? && JumpsTo(c, ft + off, i + x.off)
       case _ => false
  }

  /** A jump to an instruction that jumps by itself may become that instruction. */
  lemma CopyPreserves(c: seq<Instr>, link: map<nat, int>, i: nat, ft: int, x: Instr)
    requires i < |c| && c[i].IJmp? && NoOpenCalls(c)
    requires JumpsTo(c, i + c[i].off, ft) && CopyOf(c, ft, x, i)
    ensures Preserves(Program(c, link), Program(c[i := x], link))
  {
    var d := c[i := x];
    ghost var rel: Rel := (a: int, b: int) => JumpsTo(c, a, b) || (b == i && JumpsTo(c, a, ft));
    var skip := (p: int) => false;
    forall a, b | rel(a, b) ensures PairOk(rel, skip, Program(c, link), Program(d, link), a, b) {
      if 0 <= a < |c| {
        JumpsSelf(c, a + 1);
        if HasLabel(c[a]) { JumpsSelf(c, a + c[a].off); }
        if JumpsTo(c, a, b) {
          if a != b { JumpsFirst(c, a, b); }
        } else {
          if a != ft { JumpsFirst(c, a, ft); }
        }
      }
    }
    JumpsSelf(c, 0);
    SimulatedPreserves(rel, skip, Program(c, link), Program(d, link));
  }

  /** Closing a call; when only a return follows it, by a plain jump. */
  lemma ClosePreserves(c: seq<Instr>, link: map<nat, int>, i: nat, ret: int, tail: bool)
    requires i < |c| && c[i].IOpenCall?
    requires forall j :: 0 <= j < |c| && c[j].IOpenCall? ==> c[j].rule in link
    requires tail ==> 0 <= ret < |c| && c[ret].IRet? && JumpsTo(c, i + 1, ret)
    ensures var off := link[c[i].rule] - i;
      Preserves(Program(c, link), Program(c[i := if tail then IJmp(off) else ICall(off)], link))
  {
    var off := link[c[i].rule] - i;
    var d := c[i := if tail then IJmp(off) else ICall(off)];
    ghost var rel: Rel := (a: int, b: int) => a == b || (tail && 0 <= b < |d| && d[b].IRet? && JumpsTo(c, a, ret));
    ghost var skip := (p: int) => tail && JumpsTo(c, p, ret);
    forall a, b | rel(a, b) ensures PairOk(rel, skip, Program(c, link), Program(d, link), a, b) {
      if a != b && a != ret { JumpsFirst(c, a, ret); }
    }
    SimulatedPreserves(rel, skip, Program(c, link), Program(d, link));
  }

  // ---------------------------------------------------------------- the passes

  /** What correctcalls may put in place of instruction `i` at address `j`. */
  predicate Closed(link: map<nat, int>, i: Instr, j: int, x: Instr) {
    if i.IOpenCall? then i.rule in link && (x == ICall(link[i.rule] - j) || x == IJmp(link[i.rule] - j)) else x == i
  }

  /** correctcalls: close every open call; a call followed (through jumps) by a return becomes a jump. */
  method CorrectCalls(code: array<Instr>, link: map<nat, int>, ghost pot: seq<nat>)
    requires WellFounded(Program(code[..], link), pot)
    modifies code
    ensures WellFounded(Program(code[..], link), pot) && NoOpenCalls(code[..])
    ensures Preserves(Program(old(code[..]), link), Program(code[..], link))
    ensures forall j :: 0 <= j < code.Length ==> Closed(link, old(code[j]), j, code[j])
  {
    ghost var start := code[..];
    for i := 0 to code.Length
      invariant WellFounded(Program(code[..], link), pot)
      invariant Preserves(Program(start, link), Program(code[..], link))
      invariant forall j :: 0 <= j < i ==> !code[j].IOpenCall? && Closed(link, start[j], j, code[j])
      invariant forall j :: i <= j < code.Length ==> code[j] == start[j]
    {
      if code[i].IOpenCall? {
        ghost var c := code[..];
        assert c[i].IOpenCall?;
        var off := link[code[i].rule] - i;
        var ret := FinalTarget(code, i + 1, link, pot);
        var tail := code[ret].IRet?;
        code[i] := if tail then IJmp(off) else ICall(off);
        assert code[..] == c[i := if tail then IJmp(off) else ICall(off)];
        ClosePreserves(c, link, i, ret, tail);
        PreservesTrans(Program(start, link), Program(c, link), Program(code[..], link));
      }
    }
  }

  /** Instructions that never continue with the next one and carry no label to choose. */
  predicate Unconditional(i: Instr) {
    i.IRet? || i.IFail? || i.IFailTwice? || i.IEnd? || i.ICommit? || i.IPartialCommit? || i.IBackCommit?
  }

  /** The label at `i` leads to no jump, and a jump leads to nothing that jumps by itself. */
  predicate Threaded(c: seq<Instr>, i: int)
    requires 0 <= i < |c|
  {
    HasLabel(c[i]) ==>
      && 0 <= i + c[i].off < |c| && !c[i + c[i].off].IJmp?
      && (c[i].IJmp? ==> !Unconditional(c[i + c[i].off]))
  }

  /** Changing an instruction, but never to a jump or to an unconditional one it was not, keeps threading. */
  predicate Refined(x: Instr, y: Instr) {
    x.IJmp? || (!y.IJmp? && (Unconditional(y) ==> Unconditional(x)))
  }

  lemma RewriteKeeps(c: seq<Instr>, link: map<nat, int>, pot: seq<nat>, i: nat, y: Instr)
    requires WellFounded(Program(c, link), pot) && NoOpenCalls(c) && i < |c|
    requires Refined(c[i], y) && !y.IOpenCall?
    requires HasLabel(y) ==> 0 <= i + y.off < |c|
    requires y.IJmp? ==> pot[i + y.off] < pot[i]
    ensures WellFounded(Program(c[i := y], link), pot) && NoOpenCalls(c[i := y])
    ensures forall j :: 0 <= j < |c| && j != i && Threaded(c, j) ==> Threaded(c[i := y], j)
  {
  }

  /** Aim the label of instruction `i` at its final target. */
  method OptimizeLabel(code: array<Instr>, i: nat, ghost link: map<nat, int>, ghost pot: seq<nat>)
    requires i < code.Length && HasLabel(code[i]) && !code[i].IJmp?
    requires WellFounded(Program(code[..], link), pot) && NoOpenCalls(code[..])
    modifies code
    ensures WellFounded(Program(code[..], link), pot) && NoOpenCalls(code[..])
    ensures Preserves(Program(old(code[..]), link), Program(code[..], link))
    ensures Threaded(code[..], i)
    ensures forall j :: 0 <= j < code.Length && j != i && Threaded(old(code[..]), j) ==> Threaded(code[..], j)
    ensures forall j :: i < j < code.Length ==> code[j] == old(code[j])
  {
    ghost var c := code[..];
    assert HasLabel(c[i]);
    var ft := FinalTarget(code, i + code[i].off, link, pot);
    code[i] := WithOff(code[i], ft - i);
    assert code[..] == c[i := WithOff(c[i], ft - i)];
    RelabelPreserves(c, link, i, ft - i);
    RewriteKeeps(c, link, pot, i, WithOff(c[i], ft - i));
  }

  /** Turn the jump at `i` into what it jumps to, when that jumps by itself; else shorten it. */
  method OptimizeJump(code: array<Instr>, i: nat, ghost link: map<nat, int>, ghost pot: seq<nat>)
    requires i < code.Length && code[i].IJmp?
    requires WellFounded(Program(code[..], link), pot) && NoOpenCalls(code[..])
    modifies code
    ensures WellFounded(Program(code[..], link), pot) && NoOpenCalls(code[..])
    ensures Preserves(Program(old(code[..]), link), Program(code[..], link))
    ensures Threaded(code[..], i)
    ensures forall j :: 0 <= j < code.Length && j != i && Threaded(old(code[..]), j) ==> Threaded(code[..], j)
    ensures forall j :: i < j < code.Length ==> code[j] == old(code[j])
  {
    ghost var c := code[..];
    assert c[i].IJmp?;
    var ft := FinalTarget(code, i, link, pot);
    JumpsFirst(c, i, ft);
    JumpsDescend(Program(c, link), pot, i + c[i].off, ft);
    var x := code[ft];
    if x.IRet? || x.IFail? || x.IFailTwice? || x.IEnd? {
      CopyInto(code, i, ft, x, link, pot);
    } else if x.ICommit? || x.IPartialCommit? || x.IBackCommit? {
      CopyLabelled(code, i, ft, link, pot);
    } else {
      ShortenJump(code, i, ft, link, pot);
    }
  }

  method ShortenJump(code: array<Instr>, i: nat, ft: int, ghost link: map<nat, int>, ghost pot: seq<nat>)
    requires i < code.Length && code[i].IJmp? && 0 <= ft < code.Length
    requires WellFounded(Program(code[..], link), pot) && NoOpenCalls(code[..])
    requires !code[ft].IJmp? && !Unconditional(code[ft]) && pot[ft] < pot[i]
    requires JumpsTo(code[..], i + code[i].off, ft)
    modifies code
    ensures WellFounded(Program(code[..], link), pot) && NoOpenCalls(code[..])
    ensures Preserves(Program(old(code[..]), link), Program(code[..], link))
    ensures Threaded(code[..], i)
    ensures forall j :: 0 <= j < code.Length && j != i && Threaded(old(code[..]), j) ==> Threaded(code[..], j)
    ensures forall j :: i < j < code.Length ==> code[j] == old(code[j])
  {
    ghost var c := code[..];
    assert c[i].IJmp? && c[ft] == code[ft];
    code[i] := IJmp(ft - i);
    assert code[..] == c[i := WithOff(c[i], ft - i)];
    RelabelPreserves(c, link, i, ft - i);
    RewriteKeeps(c, link, pot, i, IJmp(ft - i));
  }

  method CopyInto(code: array<Instr>, i: nat, ft: int, x: Instr, ghost link: map<nat, int>, ghost pot: seq<nat>)
    requires i < code.Length && code[i].IJmp? && !x.IJmp? && !x.IOpenCall?
    requires WellFounded(Program(code[..], link), pot) && NoOpenCalls(code[..])
    requires JumpsTo(code[..], i + code[i].off, ft) && CopyOf(code[..], ft, x, i)
    requires HasLabel(x) ==> 0 <= i + x.off < code.Length && !code[i + x.off].IJmp?
    modifies code
    ensures WellFounded(Program(code[..], link), pot) && NoOpenCalls(code[..])
    ensures Preserves(Program(old(code[..]), link), Program(code[..], link))
    ensures code[i] == x
    ensures Threaded(code[..], i)
    ensures forall j :: 0 <= j < code.Length && j != i && Threaded(old(code[..]), j) ==> Threaded(code[..], j)
    ensures forall j :: i < j < code.Length ==> code[j] == old(code[j])
  {
    ghost var c := code[..];
    assert c[i].IJmp?;
    code[i] := x;
    assert code[..] == c[i := x];
    CopyPreserves(c, link, i, ft, x);
    RewriteKeeps(c, link, pot, i, x);
  }

  method CopyLabelled(code: array<Instr>, i: nat, ft: int, ghost link: map<nat, int>, ghost pot: seq<nat>)
    requires i < code.Length && code[i].IJmp? && 0 <= ft < code.Length
    requires code[ft].ICommit? || code[ft].IPartialCommit? || code[ft].IBackCommit?
    requires WellFounded(Program(code[..], link), pot) && NoOpenCalls(code[..])
    requires JumpsTo(code[..], i + code[i].off, ft)
    modifies code
    ensures WellFounded(Program(code[..], link), pot) && NoOpenCalls(code[..])
    ensures Preserves(Program(old(code[..]), link), Program(code[..], link))
    ensures Threaded(code[..], i)
    ensures forall j :: 0 <= j < code.Length && j != i && Threaded(old(code[..]), j) ==> Threaded(code[..], j)
    ensures forall j :: i < j < code.Length ==> code[j] == old(code[j])
  {
    ghost var c := code[..];
    assert HasLabel(c[ft]);
    var fft := FinalTarget(code, ft + code[ft].off, link, pot);
    CopyInto(code, i, ft, WithOff(code[ft], fft - i), link, pot);
    ghost var m := code[..];
    OptimizeLabel(code, i, link, pot);   // `goto redo`
    PreservesTrans(Program(c, link), Program(m, link), Program(code[..], link));
  }

  /** peephole: every label leads to its final target, jumps to jump-like code become that code. */
  method Peephole(code: array<Instr>, ghost link: map<nat, int>, ghost pot: seq<nat>)
    requires WellFounded(Program(code[..], link), pot) && NoOpenCalls(code[..])
    modifies code
    ensures Preserves(Program(old(code[..]), link), Program(code[..], link))
    ensures NoOpenCalls(code[..])
    ensures forall j :: 0 <= j < code.Length ==> Threaded(code[..], j)
  {
    ghost var start := code[..];
    for i := 0 to code.Length
      invariant WellFounded(Program(code[..], link), pot) && NoOpenCalls(code[..])
      invariant Preserves(Program(start, link), Program(code[..], link))
      invariant forall j :: 0 <= j < i ==> Threaded(code[..], j)
    {
      ghost var c := code[..];
      if code[i].IJmp? {
        OptimizeJump(code, i, link, pot);
        PreservesTrans(Program(start, link), Program(c, link), Program(code[..], link));
      } else if HasLabel(code[i]) {
        OptimizeLabel(code, i, link, pot);
        PreservesTrans(Program(start, link), Program(c, link), Program(code[..], link));
      }
    }
  }
}
