/** Products, quotients and remainders of natural numbers, one step at a time. */
module Arithmetic {

  lemma AtLeastOne(d: int, p: nat)
    ensures d > 0 ==> d * p >= p
    ensures d < 0 ==> d * p + p <= 0
  {}

  lemma Distributes(a: nat, b: nat, p: nat)
    ensures (a + b) * p == a * p + b * p
  {}

  lemma Associates(a: nat, b: nat, c: nat)
    ensures a * b * c == a * (b * c)
  {}

  lemma Divided(n: nat, p: nat)
    requires p > 0
    ensures n == n / p * p + n % p
  {}

  function Quotient(n: nat, p: nat): nat
    requires p > 0
  {
    n / p
  }

  /** Quotient and remainder are unique. */
  lemma SameQuotient(a: nat, b: nat, p: nat, x: nat, y: nat)
    requires x < p && y < p && a * p + x == b * p + y
    ensures a == b
  {
    ghost var d := a - b;
    assert d * p == y - x;
    AtLeastOne(d, p);
  }

  lemma DivideBack(q: nat, p: nat, r: nat)
    requires r < p
    ensures (q * p + r) / p == q && (q * p + r) % p == r
  {
    var n := q * p + r;
    Divided(n, p);
    SameQuotient(n / p, q, p, n % p, r);
  }

  /** Whole multiples come out of a quotient. */
  lemma QuotientOfSum(a: nat, y: nat, p: nat)
    requires p > 0
    ensures (a * p + y) / p == a + y / p
  {
    var q, r := y / p, y % p;
    Divided(y, p);
    Distributes(a, q, p);
    DivideBack(a + q, p, r);
  }

  /** A digit of weight `p` below one of `m` weights stays below their product. */
  lemma TopBelow(r: nat, m: nat, p: nat, low: nat)
    requires r < m && low < p
    ensures r * p + low < m * p
  {
    AtLeastOne(m - r, p);
    Distributes(r, m - r, p);
  }

  lemma TwoDigits(s: nat, t: nat, r: nat, a: nat, b: nat)
    requires t < b && r < a
    ensures ((s * b + t) * a + r) / (b * a) == s
  {
    TopBelow(t, b, a, r);
    Distributes(s * b, t, a);
    Associates(s, b, a);
    DivideBack(s, b * a, t * a + r);
  }

  /** Dividing by a product is dividing twice. */
  lemma DivideTwice(n: nat, a: nat, b: nat)
    requires a > 0 && b > 0
    ensures b * a > 0 && n / (b * a) == n / a / b
  {
    AtLeastOne(b, a);
    Divided(n, a);
    Divided(n / a, b);
    TwoDigits(n / a / b, n / a % b, n % a, a, b);
  }

  /** Reducing the top digit is reducing the number. */
  lemma ModuloTop(a: nat, m: nat, p: nat, low: nat)
    requires m > 0 && low < p
    ensures m * p > 0 && (a * p + low) % (m * p) == a % m * p + low
  {
    var q, r := a / m, a % m;
    Divided(a, m);
    AtLeastOne(m, p);
    TopBelow(r, m, p, low);
    Distributes(q * m, r, p);
    Associates(q, m, p);
    DivideBack(q, m * p, r * p + low);
  }

  lemma QuotientBelow(v: nat, a: nat, b: nat)
    requires b > 0 && v < a * b
    ensures Quotient(v, b) < a
  {
    var q := v / b;
    Divided(v, b);
    if q >= a {
      Distributes(a, q - a, b);
      AtLeastOne(q - a, b);
      assert false;
    }
  }

  /** Whole pairs above a digit do not change its parity. */
  lemma DigitParity(q: nat, a: nat, p: nat, r: nat)
    requires p > 0
    ensures Quotient(q * (a * (2 * p)) + r, p) % 2 == Quotient(r, p) % 2
  {
    Associates(q, a, 2 * p);
    Associates(q * a, 2, p);
    QuotientOfSum(q * a * 2, r, p);
    EvenPart(q * a, Quotient(r, p));
  }

  lemma EvenPart(a: nat, b: nat)
    ensures (a * 2 + b) % 2 == b % 2
  {}

  lemma Quotients(n: nat)
    ensures n / 256 / 256 == n / 0x1_0000 && n / 256 / 256 / 256 == n / 0x100_0000
  {}
}
