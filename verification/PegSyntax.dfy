/**
 * Patterns of the LPeg library without captures, as the tree builder leaves them
 * (3rd/lpeg/lptree.h). All rules of all grammars of a pattern live in one table, so a
 * call refers to its rule directly, as the second sibling of a TCall node does.
 */
module PegSyntax {

  type Byte = b: int | 0 <= b < 256

  type Charset = set<Byte>

  const Full: Charset := set b: Byte | 0 <= b < 256

  const MAXBEHIND: nat := 255
  const MAXRULES: nat := 250

  datatype Tree =
    | TChar(c: Byte)
    | TSet(cs: Charset)
    | TAny
    | TTrue
    | TFalse
    | TRep(p: Tree)
    | TSeq(p1: Tree, p2: Tree)
    | TChoice(p1: Tree, p2: Tree)
    | TNot(p: Tree)
    | TAnd(p: Tree)
    | TCall(rule: nat)
    | TGrammar(first: nat, count: nat)
    | TBehind(p: Tree, n: nat)

  function Max(a: nat, b: nat): nat { if a < b then b else a }

  function Min(a: nat, b: nat): nat { if a < b then a else b }

  /** Smallest first rule of a grammar node inside `t`, or `top` when there is none. */
  function MinFirst(t: Tree, top: nat): nat {
    match t
    case TRep(p) => MinFirst(p, top)
    case TSeq(a, b) => Min(MinFirst(a, top), MinFirst(b, top))
    case TChoice(a, b) => Min(MinFirst(a, top), MinFirst(b, top))
    case TNot(p) => MinFirst(p, top)
    case TAnd(p) => MinFirst(p, top)
    case TBehind(p, _) => MinFirst(p, top)
    case TGrammar(f, _) => Min(f, top)
    case _ => top
  }

  /** Every call in `t` itself (not inside a nested grammar) goes to a live rule in lo..hi. */
  predicate CallsIn(t: Tree, lo: nat, hi: nat, live: set<nat>) {
    match t
    case TRep(p) => CallsIn(p, lo, hi, live)
    case TSeq(a, b) => CallsIn(a, lo, hi, live) && CallsIn(b, lo, hi, live)
    case TChoice(a, b) => CallsIn(a, lo, hi, live) && CallsIn(b, lo, hi, live)
    case TNot(p) => CallsIn(p, lo, hi, live)
    case TAnd(p) => CallsIn(p, lo, hi, live)
    case TBehind(p, _) => CallsIn(p, lo, hi, live)
    case TCall(r) => lo <= r < hi && r in live
    case _ => true
  }

  /** No call at all outside nested grammars. */
  predicate NoCalls(t: Tree) {
    match t
    case TRep(p) => NoCalls(p)
    case TSeq(a, b) => NoCalls(a) && NoCalls(b)
    case TChoice(a, b) => NoCalls(a) && NoCalls(b)
    case TNot(p) => NoCalls(p)
    case TAnd(p) => NoCalls(p)
    case TBehind(p, _) => NoCalls(p)
    case TCall(_) => false
    case _ => true
  }

  /**
   * The rules of a pattern. `home[r]` is the first rule of the grammar that owns rule r and
   * `size[r]` the number of rules of that grammar; `live` holds the rules some call (or the
   * grammar itself, for its first rule) refers to.
   */
  datatype Table = Table(rules: seq<Tree>, home: seq<nat>, size: seq<nat>, live: set<nat>) {

    /** Grammar nodes in `t` name complete groups of the table. */
    predicate GrammarsOk(t: Tree) {
      match t
      case TRep(p) => GrammarsOk(p)
      case TSeq(a, b) => GrammarsOk(a) && GrammarsOk(b)
      case TChoice(a, b) => GrammarsOk(a) && GrammarsOk(b)
      case TNot(p) => GrammarsOk(p)
      case TAnd(p) => GrammarsOk(p)
      case TBehind(p, _) => GrammarsOk(p)
      case TGrammar(f, c) =>
        && c >= 1
        && f + c <= |rules|
        && |home| == |rules| == |size|
        && f in live
        && forall i {:trigger home[i]} :: f <= i < f + c ==> home[i] == f && size[i] == c
      case _ => true
    }

    lemma GroupFacts(f: nat, c: nat)
      requires GrammarsOk(TGrammar(f, c))
      ensures c >= 1 && f + c <= |rules| && |home| == |rules| == |size| && f in live
      ensures forall i :: f <= i < f + c ==> home[i] == f && size[i] == c
    {
      forall i | f <= i < f + c ensures home[i] == f && size[i] == c { assert home[i] == f; }
    }

    /** A tree whose calls stay in the group lo..hi and whose nested grammars come later. */
    predicate TreeOk(t: Tree, lo: nat, hi: nat) {
      && CallsIn(t, lo, hi, live)
      && GrammarsOk(t)
      && hi <= |rules|
      && MinFirst(t, |rules|) >= hi
    }

    /** The shape buildgrammar and finalfix give to a pattern's rules. */
    predicate Valid() {
      && |home| == |rules| == |size|
      && forall r {:trigger rules[r]} :: 0 <= r < |rules| ==>
        && home[r] <= r < home[r] + size[r]
        && TreeOk(rules[r], home[r], home[r] + size[r])
    }
  }

  lemma {:induction false} MinFirstTop(t: Tree, top: nat)
    ensures MinFirst(t, top) <= top
  {
    match t
    case TRep(p) => MinFirstTop(p, top);
    case TSeq(a, b) => MinFirstTop(a, top); MinFirstTop(b, top);
    case TChoice(a, b) => MinFirstTop(a, top); MinFirstTop(b, top);
    case TNot(p) => MinFirstTop(p, top);
    case TAnd(p) => MinFirstTop(p, top);
    case TBehind(p, _) => MinFirstTop(p, top);
    case _ =>
  }
}
