/** Fractions in lowest terms, as math/big keeps them, and the real number each one is. */
module Rational {

  function Abs(n: int): (r: nat) {
    if n < 0 then -n else n
  }

  function Gcd(a: nat, b: nat): (g: nat)
    requires a > 0 || b > 0
    ensures g > 0
    decreases b
  {
    if b == 0 then a else Gcd(b, a % b)
  }

  ghost predicate Divides(g: nat, a: int) {
    exists k: int :: a == k * g
  }

  lemma DividesSum(g: nat, a: int, b: int, q: int)
    requires Divides(g, a) && Divides(g, b)
    ensures Divides(g, q * a + b)
  {
    var k: int :| a == k * g;
    var l: int :| b == l * g;
    assert q * a + b == (q * k + l) * g;
  }

  lemma {:induction false} GcdDivides(a: nat, b: nat)
    requires a > 0 || b > 0
    ensures Divides(Gcd(a, b), a) && Divides(Gcd(a, b), b)
    decreases b
  {
    if b == 0 {
      assert a == 1 * a && b == 0 * a;
    } else {
      GcdDivides(b, a % b);
      DividesSum(Gcd(a, b), b, a % b, a / b);
    }
  }

  lemma {:induction false} Bezout(a: nat, b: nat) returns (x: int, y: int)
    requires a > 0 || b > 0
    ensures a * x + b * y == Gcd(a, b)
    decreases b
  {
    if b == 0 {
      x, y := 1, 0;
    } else {
      var u, v := Bezout(b, a % b);
      x, y := v, u - (a / b) * v;
      BezoutStep(a, b, a / b, a % b, u, v);
    }
  }

  lemma BezoutStep(a: int, b: int, q: int, r: int, u: int, v: int)
    requires a == b * q + r
    ensures a * v + b * (u - q * v) == b * u + r * v
  {
    assert a * v == b * q * v + r * v;
  }

  lemma Multiples(k: int, a: int)
    requires a > 0
    ensures k > 0 ==> k * a >= a
    ensures k > 1 ==> k * a >= 2 * a
    ensures k <= 0 ==> k * a <= 0
    ensures k < 0 ==> k * a <= -a
  {
  }

  /** Coprime(n, d): some combination of the two is one. */
  ghost predicate Coprime(n: int, d: int) {
    exists x: int, y: int :: n * x + d * y == 1
  }

  lemma GcdOneIsCoprime(n: int, d: nat)
    requires d > 0 && Gcd(Abs(n), d) == 1
    ensures Coprime(n, d)
  {
    var x, y := Bezout(Abs(n), d);
    var z := if n < 0 then -x else x;
    assert n * z == Abs(n) * x;
    assert n * z + d * y == 1;
  }

  lemma CoprimeHasGcdOne(n: int, d: nat)
    requires d > 0 && Coprime(n, d)
    ensures Gcd(Abs(n), d) == 1
  {
    var x: int, y: int :| n * x + d * y == 1;
    var g := Gcd(Abs(n), d);
    GcdDivides(Abs(n), d);
    hide Gcd;
    var k: int :| Abs(n) == k * g;
    var l: int :| d == l * g;
    var m := if n < 0 then -k else k;
    assert n == m * g;
    Combination(m, l, g, x, y);
    UnitFactor(g, m * x + l * y);
  }

  lemma Combination(m: int, l: int, g: int, x: int, y: int)
    ensures (m * g) * x + (l * g) * y == g * (m * x + l * y)
  {
  }

  lemma UnitFactor(g: nat, k: int)
    requires g > 0 && g * k == 1
    ensures g == 1
  {
    Multiples(k, g);
  }

  datatype Fraction = Fraction(num: int, den: int)

  /** What every big.Rat is. */
  predicate Lowest(r: Fraction) {
    r.den > 0 && Gcd(Abs(r.num), r.den) == 1
  }

  /** big.Rat.SetFrac for a positive denominator. */
  function Reduced(n: int, d: int): (r: Fraction)
    requires d > 0
  {
    var g := Gcd(Abs(n), d);
    Fraction(n / g, d / g)
  }

  lemma Factored(n: int, d: int) returns (m: int, l: int, g: nat)
    requires d > 0
    ensures g == Gcd(Abs(n), d) && n == m * g && d == l * g && Coprime(m, l)
  {
    g := Gcd(Abs(n), d);
    GcdDivides(Abs(n), d);
    var x, y := Bezout(Abs(n), d);
    hide Gcd;
    var k: int :| Abs(n) == k * g;
    l :| d == l * g;
    m := if n < 0 then -k else k;
    var z := if n < 0 then -x else x;
    assert n == m * g;
    assert n * z == Abs(n) * x;
    ReducedCoprime(m, l, g, z, y);
  }

  lemma ReducedIsLowest(n: int, d: int)
    requires d > 0
    ensures Lowest(Reduced(n, d))
    ensures n * Reduced(n, d).den == Reduced(n, d).num * d
  {
    var m, l, g := Factored(n, d);
    hide Coprime;
    Quotient(n, m, g);
    Quotient(d, l, g);
    Multiples(l, g);
    CoprimeHasGcdOne(m, l);
    CrossFactors(m, l, g);
  }

  lemma CrossFactors(m: int, l: int, g: int)
    ensures (m * g) * l == m * (l * g)
  {
  }

  lemma ReducedCoprime(m: int, l: int, g: int, x: int, y: int)
    requires g > 0 && (m * g) * x + (l * g) * y == g
    ensures Coprime(m, l)
  {
    Combination(m, l, g, x, y);
    Multiples(m * x + l * y, g);
    assert m * x + l * y == 1;
  }

  lemma Quotient(n: int, m: int, g: nat)
    requires g > 0 && n == m * g
    ensures n / g == m
  {
    var q := n / g;
    assert n == q * g + n % g;
    assert (m - q) * g == n % g;
    Multiples(m - q, g);
  }

  /** Fractions in lowest terms are equal as soon as they are the same number. */
  lemma LowestUnique(r: Fraction, s: Fraction)
    requires Lowest(r) && Lowest(s) && r.num * s.den == s.num * r.den
    ensures r == s
  {
    Denominator(r, s);
    Denominator(s, r);
    SamePositive(r.den, s.den);
    CancelRight(r.num, s.num, r.den);
  }

  lemma Denominator(r: Fraction, s: Fraction)
    requires Lowest(r) && Lowest(s) && r.num * s.den == s.num * r.den
    ensures Divides(r.den, s.den)
  {
    GcdOneIsCoprime(r.num, r.den);
    var x: int, y: int :| r.num * x + r.den * y == 1;
    hide Lowest;
    FactorOut(r.num, r.den, s.num, s.den, x, y);
    assert s.den == (s.num * x + s.den * y) * r.den;
  }

  lemma FactorOut(a: int, b: int, c: int, d: int, x: int, y: int)
    requires a * x + b * y == 1 && a * d == c * b
    ensures d == (c * x + d * y) * b
  {
    calc {
      d;
      d * (a * x + b * y);
      (a * d) * x + d * b * y;
      (c * b) * x + d * b * y;
    }
  }

  lemma SamePositive(a: nat, b: nat)
    requires a > 0 && b > 0 && Divides(a, b) && Divides(b, a)
    ensures a == b
  {
    var k: int :| b == k * a;
    var l: int :| a == l * b;
    Multiples(k, a);
    Multiples(l, b);
  }

  lemma CancelRight(m: int, n: int, d: int)
    requires d > 0 && m * d == n * d
    ensures m == n
  {
    assert (m - n) * d == 0;
    Multiples(m - n, d);
  }

  // ----- Arithmetic -----

  function Add(r: Fraction, s: Fraction): (t: Fraction)
    requires Lowest(r) && Lowest(s)
  {
    PositiveProduct(r.den, s.den);
    Reduced(r.num * s.den + s.num * r.den, r.den * s.den)
  }

  function Subtract(r: Fraction, s: Fraction): (t: Fraction)
    requires Lowest(r) && Lowest(s)
  {
    PositiveProduct(r.den, s.den);
    Reduced(r.num * s.den - s.num * r.den, r.den * s.den)
  }

  /** big.Rat.Cmp, by cross multiplication. */
  function Compare(r: Fraction, s: Fraction): (c: int)
    requires Lowest(r) && Lowest(s)
  {
    if r.num * s.den < s.num * r.den then -1 else if r.num * s.den == s.num * r.den then 0 else 1
  }

  lemma PositiveProduct(a: int, b: int)
    requires a > 0 && b > 0
    ensures a * b > 0
  {
  }

  // ----- As real numbers -----

  ghost function Real(r: Fraction): (x: real)
    requires r.den > 0
  {
    r.num as real / r.den as real
  }

  lemma {:induction false} ProductReal(a: nat, b: int)
    ensures (a * b) as real == a as real * b as real
  {
    if a > 0 {
      ProductReal(a - 1, b);
      assert a * b == (a - 1) * b + b;
    }
  }

  lemma ProductRealSigned(a: int, b: int)
    ensures (a * b) as real == a as real * b as real
  {
    if a >= 0 {
      ProductReal(a, b);
    } else {
      ProductReal(-a, b);
      assert a * b == -((-a) * b);
    }
  }

  /** Cross multiplying compares the numbers. */
  lemma CrossReal(r: Fraction, s: Fraction)
    requires r.den > 0 && s.den > 0
    ensures r.num * s.den < s.num * r.den <==> Real(r) < Real(s)
    ensures r.num * s.den == s.num * r.den <==> Real(r) == Real(s)
  {
    ProductRealSigned(r.num, s.den);
    ProductRealSigned(s.num, r.den);
    Cross(r.num as real, r.den as real, s.num as real, s.den as real);
  }

  lemma Cross(a: real, b: real, c: real, d: real)
    requires b > 0.0 && d > 0.0
    ensures a * d < c * b <==> a / b < c / d
    ensures a * d == c * b <==> a / b == c / d
  {
    var p, q := a / b, c / d;
    assert a == p * b && c == q * d;
    assert a * d == p * (b * d) && c * b == q * (b * d);
    assert b * d > 0.0;
    ScaleOrder(p, q, b * d);
  }

  lemma ScaleOrder(p: real, q: real, m: real)
    requires m > 0.0
    ensures p * m < q * m <==> p < q
    ensures p * m == q * m <==> p == q
  {
    if p < q {
      assert (q - p) * m > 0.0;
    } else if q < p {
      assert (p - q) * m > 0.0;
    }
  }

  /** Two fractions in lowest terms are one record exactly when they are one number, and comparing
      them compares the numbers. */
  lemma CompareReal(r: Fraction, s: Fraction)
    requires Lowest(r) && Lowest(s)
    ensures Compare(r, s) < 0 <==> Real(r) < Real(s)
    ensures Compare(r, s) == 0 <==> Real(r) == Real(s)
    ensures r == s <==> Real(r) == Real(s)
  {
    CrossReal(r, s);
    if Real(r) == Real(s) {
      LowestUnique(r, s);
    }
  }

  lemma ReducedReal(n: int, d: int)
    requires d > 0
    ensures Lowest(Reduced(n, d)) && Real(Reduced(n, d)) == n as real / d as real
  {
    ReducedIsLowest(n, d);
    CrossReal(Reduced(n, d), Fraction(n, d));
  }

  lemma AddReal(r: Fraction, s: Fraction)
    requires Lowest(r) && Lowest(s)
    ensures Lowest(Add(r, s)) && Real(Add(r, s)) == Real(r) + Real(s)
  {
    PositiveProduct(r.den, s.den);
    ReducedReal(r.num * s.den + s.num * r.den, r.den * s.den);
    hide Reduced;
    CrossSum(r.num, r.den, s.num, s.den);
  }

  lemma SubtractReal(r: Fraction, s: Fraction)
    requires Lowest(r) && Lowest(s)
    ensures Lowest(Subtract(r, s)) && Real(Subtract(r, s)) == Real(r) - Real(s)
  {
    PositiveProduct(r.den, s.den);
    ReducedReal(r.num * s.den - s.num * r.den, r.den * s.den);
    hide Reduced;
    CrossSum(r.num, r.den, -s.num, s.den);
    assert r.num * s.den - s.num * r.den == r.num * s.den + (-s.num) * r.den;
    NegatedQuotient(s.num as real, s.den as real);
  }

  lemma NegatedQuotient(a: real, b: real)
    requires b > 0.0
    ensures (-a) / b == -(a / b)
  {
  }

  lemma CrossSum(a: int, b: int, c: int, d: int)
    requires b > 0 && d > 0 && b * d > 0
    ensures (a * d + c * b) as real / (b * d) as real == a as real / b as real + c as real / d as real
  {
    ProductRealSigned(a, d);
    ProductRealSigned(c, b);
    ProductRealSigned(b, d);
    SumOfQuotients(a as real, b as real, c as real, d as real, (a * d + c * b) as real, (b * d) as real);
  }

  lemma SumOfQuotients(a: real, b: real, c: real, d: real, n: real, m: real)
    requires b > 0.0 && d > 0.0 && m > 0.0 && n == a * d + c * b && m == b * d
    ensures n / m == a / b + c / d
  {
    var p, q := a / b, c / d;
    assert a == p * b && c == q * d;
    assert n == (p + q) * m;
    assert (p + q) * m / m == p + q;
  }
}
