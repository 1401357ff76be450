/** Sizes of sets that gain or lose one element. */
module Counting {

  function One(b: bool): nat { if b then 1 else 0 }

  lemma SizeWithout<T>(x: set<T>, a: T)
    ensures |x| == |x - {a}| + One(a in x)
  {
    if a in x { assert x == (x - {a}) + {a}; } else { assert x == x - {a}; }
  }

  /** Two sets that differ in `a` at most. */
  lemma SizeChange<T>(x: set<T>, y: set<T>, a: T)
    requires x - {a} == y - {a}
    ensures |x| + One(a in y) == |y| + One(a in x)
  {
    SizeWithout(x, a);
    SizeWithout(y, a);
  }

  lemma SizePositive<T>(x: set<T>, a: T)
    requires a in x
    ensures |x| >= 1
  {
  }
}
