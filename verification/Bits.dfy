/** Bitwise operations on natural numbers, bit by bit, and what masks of low bits do. */
module Bits {
  import opened Division

  function Pow2(k: nat): (p: nat)
    ensures p > 0
  {
    if k == 0 then 1 else 2 * Pow2(k - 1)
  }

  lemma {:induction false} Pow2Split(a: nat, b: nat)
    ensures Pow2(a + b) == Pow2(a) * Pow2(b)
  {
    if a > 0 {
      Pow2Split(a - 1, b);
      assert Pow2(a + b) == 2 * (Pow2(a - 1) * Pow2(b));
      assert 2 * (Pow2(a - 1) * Pow2(b)) == (2 * Pow2(a - 1)) * Pow2(b);
    }
  }

  /** x | y */
  function Or(x: nat, y: nat): nat
    decreases x + y
  {
    if x == 0 && y == 0 then 0 else 2 * Or(x / 2, y / 2) + (if x % 2 == 1 || y % 2 == 1 then 1 else 0)
  }

  /** x & y */
  function And(x: nat, y: nat): nat
    decreases x + y
  {
    if x == 0 && y == 0 then 0 else 2 * And(x / 2, y / 2) + (if x % 2 == 1 && y % 2 == 1 then 1 else 0)
  }

  lemma {:induction false} WithZero(x: nat)
    ensures Or(x, 0) == x && And(x, 0) == 0
    decreases x
  {
    if x > 0 { WithZero(x / 2); }
  }

  lemma HalfQuotient(x: nat, m: nat)
    requires m > 0
    ensures x / (2 * m) == (x / 2) / m && x % (2 * m) == 2 * ((x / 2) % m) + x % 2
  {
    var q, r := (x / 2) / m, (x / 2) % m;
    assert x == (2 * m) * q + (2 * r + x % 2) by { assert x / 2 == m * q + r; }
    DivExact(q, 2 * m, 2 * r + x % 2);
  }

  /** Setting the k low bits, and keeping only them. */
  lemma {:induction false} LowBits(x: nat, k: nat)
    ensures Or(x, Pow2(k) - 1) == Pow2(k) * (x / Pow2(k)) + (Pow2(k) - 1)
    ensures And(x, Pow2(k) - 1) == x % Pow2(k)
    decreases k
  {
    if k == 0 {
      WithZero(x);
    } else {
      LowBits(x / 2, k - 1);
      Doubled(x, Pow2(k - 1));
    }
  }

  lemma Doubled(x: nat, m: nat)
    requires m > 0 && Or(x / 2, m - 1) == m * (x / 2 / m) + (m - 1) && And(x / 2, m - 1) == (x / 2) % m
    ensures Or(x, 2 * m - 1) == 2 * m * (x / (2 * m)) + (2 * m - 1) && And(x, 2 * m - 1) == x % (2 * m)
  {
    hide Or, And;
    HalfQuotient(x, m);
    OneBit(x, m, x / 2 / m);
  }

  lemma OneBit(x: nat, m: nat, q: nat)
    requires m > 0
    ensures (2 * m - 1) / 2 == m - 1 && (2 * m - 1) % 2 == 1
    ensures Or(x, 2 * m - 1) == 2 * Or(x / 2, m - 1) + 1 && And(x, 2 * m - 1) == 2 * And(x / 2, m - 1) + x % 2
    ensures 2 * (m * q + (m - 1)) + 1 == 2 * m * q + (2 * m - 1)
  {
  }

  /** Two numbers agree above the k low bits exactly if their quotients are equal. */
  lemma SameAbove(x: nat, y: nat, k: nat)
    ensures Or(x, Pow2(k) - 1) == Or(y, Pow2(k) - 1) <==> x / Pow2(k) == y / Pow2(k)
  {
    LowBits(x, k);
    LowBits(y, k);
    hide Or, Pow2;
    var m, a, b := Pow2(k), x / Pow2(k), y / Pow2(k);
    if m * a == m * b { DivExact(a, m, 0); DivExact(b, m, 0); }
  }
}
