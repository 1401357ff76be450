/** Quotients and remainders that the solver does not find by itself. */
module Division {

  lemma Bounded(m: int, d: int)
    requires m > 0 && -m < m * d < m
    ensures d == 0
  {
  }

  /** The quotient and the remainder are the only ones. */
  lemma DivExact(q: int, m: int, r: int)
    requires m > 0 && 0 <= r < m
    ensures (m * q + r) / m == q && (m * q + r) % m == r
  {
    var x := m * q + r;
    var d := x / m - q;
    assert x == m * (x / m) + x % m;
    assert m * d == r - x % m;
    Bounded(m, d);
  }
}
