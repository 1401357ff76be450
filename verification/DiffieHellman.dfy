/**
  The Diffie-Hellman exchange of lua-crypt.c: arithmetic modulo the largest 64-bit prime, done in
  64-bit words that wrap around.
*/
module DiffieHellman {
  import opened Division
  import opened Words

  const P: nat := 0xffff_ffff_ffff_ffc5
  const G: nat := 5

  function Power(a: nat, b: nat): nat {
    if b == 0 then 1 else a * Power(a, b - 1)
  }

  /** A 64-bit word. */
  function Wrapped(x: int): (w: nat)
    ensures w < WRAP64
    ensures 0 <= x < WRAP64 ==> w == x
  {
    x % WRAP64
  }

  // ---------------------------------------------------------------- congruence

  predicate Congruent(x: int, y: int) { x % P == y % P }

  lemma Multiple(x: int, k: int)
    ensures Congruent(x + P * k, x)
  {
    var q, r := x / P, x % P;
    assert x + P * k == P * (q + k) + r;
    DivExact(q + k, P, r);
  }

  lemma Product(x: nat, x2: nat, y: nat, y2: nat)
    requires Congruent(x, x2) && Congruent(y, y2)
    ensures Congruent(x * y, x2 * y2)
  {
    ProductOfRest(x, y);
    ProductOfRest(x2, y2);
  }

  lemma ProductOfRest(x: nat, y: nat)
    ensures Congruent(x * y, (x % P) * (y % P))
  {
    var a, b := x / P, y / P;
    var r, s := x % P, y % P;
    assert x * y == (P * a + r) * (P * b + s) == r * s + P * (a * (P * b + s) + r * b) by { Expand(a, r, b, s); }
    Multiple(r * s, a * (P * b + s) + r * b);
  }

  lemma Expand(a: int, r: int, b: int, s: int)
    ensures (P * a + r) * (P * b + s) == r * s + P * (a * (P * b + s) + r * b)
  {
    var t := P * b + s;
    assert (P * a + r) * t == P * a * t + r * t;
    assert r * t == r * (P * b) + r * s;
    assert r * (P * b) == P * (r * b);
    assert P * a * t == P * (a * t);
    assert P * (a * t + r * b) == P * (a * t) + P * (r * b);
  }

  // ---------------------------------------------------------------- powers

  lemma {:induction false} PowerSum(a: nat, b: nat, c: nat)
    ensures Power(a, b + c) == Power(a, b) * Power(a, c)
  {
    if b > 0 {
      PowerSum(a, b - 1, c);
      assert a * (Power(a, b - 1) * Power(a, c)) == (a * Power(a, b - 1)) * Power(a, c);
    }
  }

  lemma {:induction false} PowerOfPower(a: nat, b: nat, c: nat)
    ensures Power(Power(a, b), c) == Power(a, b * c)
  {
    if c > 0 {
      PowerOfPower(a, b, c - 1);
      PowerSum(a, b, b * (c - 1));
      assert b + b * (c - 1) == b * c;
    } else {
      assert b * c == 0;
    }
  }

  lemma {:induction false} PowerOfProduct(a: nat, b: nat, n: nat)
    ensures Power(a * b, n) == Power(a, n) * Power(b, n)
  {
    if n > 0 {
      PowerOfProduct(a, b, n - 1);
      Shuffle(a, b, Power(a, n - 1), Power(b, n - 1));
    }
  }

  lemma Shuffle(a: nat, b: nat, x: nat, y: nat)
    ensures (a * b) * (x * y) == (a * x) * (b * y)
  {
    assert (a * b) * (x * y) == a * (b * (x * y));
    assert b * (x * y) == x * (b * y);
    assert a * (x * (b * y)) == (a * x) * (b * y);
  }

  lemma {:induction false} PowerOfRest(a: nat, a2: nat, n: nat)
    requires Congruent(a, a2)
    ensures Congruent(Power(a, n), Power(a2, n))
  {
    if n > 0 {
      PowerOfRest(a, a2, n - 1);
      Product(a, a2, Power(a, n - 1), Power(a2, n - 1));
    }
  }

  lemma {:induction false} PowerOfOne(n: nat)
    ensures Power(1, n) == 1
  {
    if n > 0 { PowerOfOne(n - 1); }
  }

  /** The inverse of G modulo P. */
  const INVERSE: nat := (2 * P + 1) / 5

  /** G has an inverse, so no power of it is 0 modulo P. */
  lemma GeneratorNeverZero(n: nat)
    ensures Power(G, n) % P != 0
  {
    assert G * INVERSE == 2 * P + 1;
    Multiple(1, 2);
    PowerOfRest(G * INVERSE, 1, n);
    PowerOfOne(n);
    PowerOfProduct(G, INVERSE, n);
    ProductOfRest(Power(G, n), Power(INVERSE, n));
  }

  /** Both orders of exponents meet in the same power. */
  lemma SameSecret(x: nat, y: nat)
    ensures Power(Power(G, x) % P, y) % P == Power(G, x * y) % P == Power(Power(G, y) % P, x) % P
    ensures Power(G, x * y) % P != 0
  {
    hide Power;
    OneSide(x, y);
    OneSide(y, x);
    Commutes(x, y);
    GeneratorNeverZero(x * y);
  }

  lemma Commutes(x: nat, y: nat)
    ensures x * y == y * x
  {
  }

  lemma OneSide(x: nat, y: nat)
    ensures Power(Power(G, x) % P, y) % P == Power(G, x * y) % P
  {
    hide Power;
    PowerOfRest(Power(G, x) % P, Power(G, x), y);
    PowerOfPower(G, x, y);
  }

  // ---------------------------------------------------------------- the words at work

  /** mul_mod_p: no step loses a carry, though a doubling may wrap on its way. */
  method MulModP(x: nat, y: nat) returns (m: nat)
    requires x <= P && y < WRAP64
    ensures m == (x * y) % P
  {
    hide Congruent, Wrapped;
    var a: nat, b: nat := x, y;
    m := 0;
    assert Congruent(x * y, x * y) by { Reflexive(x * y); }
    while b != 0
      invariant a <= P && m < P && b < WRAP64
      invariant Congruent(m + a * b, x * y)
    {
      ghost var m0, a0 := m, a;
      if b % 2 == 1 {
        var t := P - a;
        if m >= t { m := m - t; } else { m := Wrapped(m + a); }
      }
      if a >= P - a { a := Wrapped(Wrapped(a * 2) - P); } else { a := Wrapped(a * 2); }
      WrappedSum(m0, a0);
      WrappedDouble(a0);
      MulStep(m0, a0, b, m, a, x * y);
      b := b / 2;
    }
    Below(m, a, x * y);
  }

  lemma Reflexive(z: int)
    ensures Congruent(z, z)
  {
  }

  lemma Below(m: nat, a: nat, z: int)
    requires m < P && Congruent(m + a * 0, z)
    ensures m == z % P
  {
  }

  /** The sum that is kept does not wrap. */
  lemma WrappedSum(m: nat, a: nat)
    requires m < P && a <= P
    ensures m < P - a ==> Wrapped(m + a) == m + a
  {
  }

  /** A doubling that wraps comes back by taking P off it. */
  lemma WrappedDouble(a: nat)
    requires a <= P
    ensures a >= P - a ==> Wrapped(Wrapped(a * 2) - P) == 2 * a - P
    ensures a < P - a ==> Wrapped(a * 2) == 2 * a
  {
  }

  lemma MulStep(m: nat, a: nat, b: nat, m2: nat, a2: nat, z: int)
    requires b % 2 == 0 ==> m2 == m
    requires b % 2 == 1 ==> m2 == m + a || m2 == m + a - P
    requires a2 == 2 * a || a2 == 2 * a - P
    requires Congruent(m + a * b, z)
    ensures Congruent(m2 + a2 * (b / 2), z)
  {
    var h, c := b / 2, b % 2;
    var i, j := if a2 == 2 * a then 0 else 1, if m2 == m + a * c then 0 else 1;
    HalfStep(a, h, c, i);
    assert b == 2 * h + c;
    assert m2 + a2 * h == (m + a * b) + P * (-(i * h) - j);
    Multiple(m + a * b, -(i * h) - j);
  }

  lemma HalfStep(a: int, h: int, c: int, i: int)
    requires 0 <= c <= 1 && 0 <= i <= 1
    ensures (2 * a - P * i) * h == 2 * (a * h) - P * (i * h)
    ensures a * (2 * h + c) == 2 * (a * h) + a * c
    ensures a * c == if c == 1 then a else 0
  {
    assert a * (2 * h + c) == a * (2 * h) + a * c;
  }

  /** pow_mod_p; P itself, which stands for 0, comes back only as its own first power. */
  method PowModP(a: nat, b: nat) returns (r: nat)
    requires a <= P && 1 <= b < WRAP64
    ensures Congruent(r, Power(a, b)) && r <= P
    ensures r == P <==> a == P && b == 1
    decreases b
  {
    hide Congruent;
    if b == 1 {
      FirstPower(a);
      return a;
    }
    var s := PowModP(a, b / 2);
    var t := MulModP(s, s);
    Squared(a, b / 2, s);
    if b % 2 == 1 {
      OneMorePower(a, b - 1, t);
      t := MulModP(t, a);
    }
    r := t;
  }

  lemma FirstPower(a: nat)
    ensures Power(a, 1) == a && Congruent(a, Power(a, 1))
  {
    assert Power(a, 1) == a * Power(a, 0);
  }

  lemma Squared(a: nat, h: nat, s: nat)
    requires Congruent(s, Power(a, h))
    ensures Congruent((s * s) % P, Power(a, 2 * h))
  {
    hide Power, Congruent;
    Product(s, Power(a, h), s, Power(a, h));
    PowerSum(a, h, h);
    Rest(s * s, Power(a, h) * Power(a, h));
  }

  lemma OneMorePower(a: nat, n: nat, t: nat)
    requires Congruent(t, Power(a, n))
    ensures Congruent((t * a) % P, Power(a, n + 1))
  {
    Reflexive(a);
    hide Congruent;
    Product(t, Power(a, n), a, a);
    Rest(t * a, Power(a, n) * a);
    Commutes(Power(a, n), a);
  }

  lemma Rest(x: nat, z: nat)
    requires Congruent(x, z)
    ensures Congruent(x % P, z)
  {
  }

  /** powmodp: the power modulo P, except that P to the first is left as it is. */
  method PowerModP(a: nat, b: nat) returns (r: nat)
    requires a < WRAP64 && 1 <= b < WRAP64
    ensures r == Power(a, b) % P <==> !(a == P && b == 1)
    ensures a == P && b == 1 ==> r == P
  {
    var a2 := a;
    if a > P { a2 := a % P; }
    PowerOfRest(a, a2, b);
    r := PowModP(a2, b);
  }

  datatype Outcome = Failed | Word(bytes: seq<Byte>)

  function Unsigned64(x: seq<Byte>): (n: nat)
    requires |x| == 8
    ensures n < WRAP64
  {
    Powers();
    FromBytes(x)
  }

  /** ldhexchange */
  method Exchange(x: seq<Byte>) returns (r: Outcome)
    ensures r.Failed? <==> |x| != 8 || FromBytes(x) == 0
    ensures r.Word? ==> |r.bytes| == 8 && FromBytes(r.bytes) == Power(G, FromBytes(x)) % P && FromBytes(r.bytes) != 0
  {
    if |x| != 8 { return Failed; }
    var x64 := Unsigned64(x);
    if x64 == 0 { return Failed; }
    var w := PowerModP(G, x64);
    GeneratorNeverZero(x64);
    Powers();
    BytesRoundTrip(w, 8);
    r := Word(ToBytes(w, 8));
  }

  /** ldhsecret */
  method Secret(x: seq<Byte>, y: seq<Byte>) returns (r: Outcome)
    ensures r.Failed? <==> |x| != 8 || |y| != 8 || FromBytes(x) == 0 || FromBytes(y) == 0
    ensures r.Word? ==> |r.bytes| == 8
    ensures r.Word? ==>
      (FromBytes(r.bytes) == Power(FromBytes(x), FromBytes(y)) % P <==> !(FromBytes(x) == P && FromBytes(y) == 1))
    ensures r.Word? && FromBytes(x) == P && FromBytes(y) == 1 ==> r.bytes == x
  {
    if |x| != 8 || |y| != 8 { return Failed; }
    var xx, yy := Unsigned64(x), Unsigned64(y);
    if xx == 0 || yy == 0 { return Failed; }
    var w := PowerModP(xx, yy);
    Powers();
    BytesRoundTrip(w, 8);
    r := Word(ToBytes(w, 8));
    if xx == P && yy == 1 { BytesInjective(r.bytes, x); }
  }

  /** Two parties with any private keys but 0 come to one secret, and neither step fails. */
  method Agree(x: seq<Byte>, y: seq<Byte>) returns (mine: Outcome, theirs: Outcome)
    requires |x| == 8 && |y| == 8 && FromBytes(x) != 0 && FromBytes(y) != 0
    ensures mine == theirs && mine.Word? && |mine.bytes| == 8
    ensures FromBytes(mine.bytes) == Power(G, FromBytes(x) * FromBytes(y)) % P != 0
  {
    var a := Exchange(x);
    var b := Exchange(y);
    mine := Secret(b.bytes, x);
    theirs := Secret(a.bytes, y);
    SameSecret(FromBytes(x), FromBytes(y));
    BytesInjective(mine.bytes, theirs.bytes);
  }

  lemma {:induction false} BytesInjective(s: seq<Byte>, t: seq<Byte>)
    requires |s| == |t| && FromBytes(s) == FromBytes(t)
    ensures s == t
  {
    if s != [] {
      assert s[0] == FromBytes(s) % 256 && t[0] == FromBytes(t) % 256;
      BytesInjective(s[1..], t[1..]);
      assert s == [s[0]] + s[1..] && t == [t[0]] + t[1..];
    }
  }
}
