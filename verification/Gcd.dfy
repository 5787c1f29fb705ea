/** Greatest common factor, least common multiple and reduced fractions of bindings/python/rad_util.py, on integers. */
module Gcd {

  ghost predicate Divides(d: int, a: int) {
    exists k: int :: Times(k, d) == a
  }

  function Times(k: int, d: int): int {
    k * d
  }

  /** g is the greatest common divisor of a and b, and 0 if both are 0. */
  ghost predicate IsGcd(g: int, a: int, b: int) {
    && g >= 0 && Divides(g, a) && Divides(g, b)
    && forall d :: Divides(d, a) && Divides(d, b) ==> Divides(d, g)
  }

  // ---------------------------------------------------------------------- floor division

  /** Python's integer division, which rounds down whatever the signs. */
  function FloorDiv(a: int, b: int): int
    requires b != 0
  {
    if b > 0 then a / b else (-a) / (-b)
  }

  /** Python's remainder, which has the sign of the divisor. */
  function FloorMod(a: int, b: int): int
    requires b != 0
  {
    a - b * FloorDiv(a, b)
  }

  function Abs(a: int): nat {
    if a < 0 then -a else a
  }

  lemma FloorModSmaller(a: int, b: int)
    requires b != 0
    ensures Abs(FloorMod(a, b)) < Abs(b)
    ensures FloorMod(a, b) == 0 || (FloorMod(a, b) > 0 <==> b > 0)
  {
    if b > 0 {
      assert FloorMod(a, b) == a % b;
    } else {
      assert FloorMod(a, b) == -((-a) % (-b));
    }
  }

  // ------------------------------------------------------------------------ divisibility

  lemma DividesBy(k: int, d: int, a: int)
    requires a == k * d
    ensures Divides(d, a)
  {
    assert Times(k, d) == a;
  }

  lemma Quotient(d: int, a: int) returns (k: int)
    requires Divides(d, a)
    ensures a == k * d
  {
    k :| Times(k, d) == a;
  }

  /** A common divisor divides every combination. */
  lemma DividesCombination(d: int, a: int, b: int, x: int, y: int)
    requires Divides(d, a) && Divides(d, b)
    ensures Divides(d, a * x + b * y)
  {
    var j := Quotient(d, a);
    var k := Quotient(d, b);
    calc {
      a * x + b * y;
      (j * d) * x + (k * d) * y;
      (j * x + k * y) * d;
    }
    DividesBy(j * x + k * y, d, a * x + b * y);
  }

  lemma DividesSize(d: int, a: int)
    requires Divides(d, a) && a != 0
    ensures Abs(d) <= Abs(a)
  {
    var k := Quotient(d, a);
    LargeMultiple(k, Abs(d));
    assert k * Abs(d) == if d < 0 then -a else a;
  }

  /** "Greatest" in the plain sense: no common divisor of two numbers, not both 0, exceeds their gcd. */
  lemma GcdIsGreatest(g: int, a: int, b: int, d: int)
    requires IsGcd(g, a, b) && (a != 0 || b != 0) && Divides(d, a) && Divides(d, b)
    ensures g > 0 && Abs(d) <= g
  {
    if g == 0 {
      var j := Quotient(0, a);
      var k := Quotient(0, b);
    }
    DividesSize(d, g);
  }

  lemma GcdOfMagnitudes(g: int, a: int, b: int)
    requires Divides(g, a) && Divides(g, b)
    ensures Divides(Abs(g), a) && Divides(Abs(g), b)
  {
    var j := Quotient(g, a);
    var k := Quotient(g, b);
    DividesBy(if g < 0 then -j else j, Abs(g), a);
    DividesBy(if g < 0 then -k else k, Abs(g), b);
  }

  // -------------------------------------------------------------------------------- gcf

  function Combine(a: int, b: int, x: int, y: int): int {
    a * x + b * y
  }

  ghost predicate IsCombination(a: int, b: int, u: int) {
    exists x: int, y: int :: Combine(a, b, x, y) == u
  }

  /** u and v have the same common divisors as a and b, and are combinations of them. */
  ghost predicate SamePair(a: int, b: int, u: int, v: int) {
    && IsCombination(a, b, u) && IsCombination(a, b, v)
    && forall d :: Divides(d, a) && Divides(d, b) <==> Divides(d, u) && Divides(d, v)
  }

  lemma EuclidCombination(a: int, b: int, u: int, v: int, q: int)
    requires IsCombination(a, b, u) && IsCombination(a, b, v)
    ensures IsCombination(a, b, u - v * q)
  {
    var x, y :| Combine(a, b, x, y) == u;
    var z, w :| Combine(a, b, z, w) == v;
    calc {
      Combine(a, b, x - z * q, y - w * q);
      a * (x - z * q) + b * (y - w * q);
      a * x + b * y - (a * z + b * w) * q;
      u - v * q;
    }
  }

  lemma EuclidStep(a: int, b: int, u: int, v: int)
    requires SamePair(a, b, u, v) && v != 0
    ensures SamePair(a, b, v, FloorMod(u, v))
  {
    var q, r := FloorDiv(u, v), FloorMod(u, v);
    EuclidCombination(a, b, u, v, q);
    forall d ensures Divides(d, u) && Divides(d, v) <==> Divides(d, v) && Divides(d, r) {
      if Divides(d, u) && Divides(d, v) {
        DividesCombination(d, u, v, 1, -q);
        assert u * 1 + v * (-q) == r;
      }
      if Divides(d, v) && Divides(d, r) {
        DividesCombination(d, v, r, q, 1);
        assert v * q + r * 1 == u;
      }
    }
  }

  lemma StartPair(a: int, b: int)
    ensures SamePair(a, b, a, b) && SamePair(a, b, b, a)
  {
    assert Combine(a, b, 1, 0) == a && Combine(a, b, 0, 1) == b;
  }

  /** The result is the greatest common divisor, and a combination of the two numbers. */
  method Gcf(a: int, b: int) returns (g: int)
    ensures IsGcd(g, a, b) && IsCombination(a, b, g)
    ensures g == 0 <==> a == 0 && b == 0
  {
    var result := if a > b then a else b;
    var remainder := if a > b then b else a;
    StartPair(a, b);
    while remainder != 0
      invariant SamePair(a, b, result, remainder)
      decreases Abs(remainder)
    {
      EuclidStep(a, b, result, remainder);
      FloorModSmaller(result, remainder);
      result, remainder := remainder, FloorMod(result, remainder);
    }
    GcdFound(a, b, result);
    g := Abs(result);
  }

  lemma GcdFound(a: int, b: int, u: int)
    requires SamePair(a, b, u, 0)
    ensures IsGcd(Abs(u), a, b) && IsCombination(a, b, Abs(u)) && (u == 0 <==> a == 0 && b == 0)
  {
    DividesBy(1, u, u);
    DividesBy(0, u, 0);
    GcdOfMagnitudes(u, a, b);
    forall d | Divides(d, a) && Divides(d, b) ensures Divides(d, Abs(u)) {
      var k := Quotient(d, u);
      DividesBy(if u < 0 then -k else k, d, Abs(u));
    }
    if u == 0 {
      var j := Quotient(0, a);
      var k := Quotient(0, b);
    }
    var x, y :| Combine(a, b, x, y) == u;
    assert Combine(a, b, -x, -y) == -u;
  }

  // -------------------------------------------------------------------------------- lcm

  lemma ExactDivision(g: int, a: int)
    requires g > 0 && Divides(g, a)
    ensures FloorDiv(a, g) * g == a
  {
    var k := Quotient(g, a);
    var q, r := a / g, a % g;
    assert a == q * g + r;
    assert (k - q) * g == r;
    LargeMultiple(k - q, g);
  }

  lemma LargeMultiple(e: int, g: int)
    requires g >= 0
    ensures e == 0 || e * g >= g || e * g <= -g
  {
    if e >= 1 {
      assert e * g == g + (e - 1) * g;
    } else if e <= -1 {
      assert e * g == -g + (e + 1) * g;
    }
  }

  lemma CancelFactor(m: int, n: int, g: int)
    requires g > 0 && m * g == n * g
    ensures m == n
  {
    assert (m - n) * g == 0;
  }

  lemma Shuffle(t: int, b: int, a: int, u: int)
    ensures (t * b) * (a * u) == (a * b) * (t * u)
  {
  }

  lemma Distribute(m: int, x: int, y: int)
    ensures m * (x + y) == m * x + m * y
  {
  }

  lemma BothMultiples(a: int, b: int, s: int, t: int, u: int, v: int, m: int)
    requires m == s * a && m == t * b
    ensures m * (a * u + b * v) == (a * b) * (t * u + s * v)
  {
    Distribute(m, a * u, b * v);
    Shuffle(t, b, a, u);
    Shuffle(s, a, b, v);
    assert b * a == a * b;
    Distribute(a * b, t * u, s * v);
  }

  lemma Regroup(a: int, c: int, g: int, k: int)
    ensures (a * (c * g)) * k == (k * (a * c)) * g
  {
    assert a * (c * g) == (a * c) * g;
  }

  /** Every common multiple of a and b is a multiple of a times b/g. */
  lemma LcmDividesMultiples(a: int, b: int, g: int, c: int, m: int)
    requires g > 0 && IsCombination(a, b, g) && c * g == b
    requires Divides(a, m) && Divides(b, m)
    ensures Divides(a * c, m)
  {
    var u, v :| Combine(a, b, u, v) == g;
    var s := Quotient(a, m);
    var t := Quotient(b, m);
    var k := t * u + s * v;
    BothMultiples(a, b, s, t, u, v, m);
    Regroup(a, c, g, k);
    CancelFactor(m, k * (a * c), g);
    DividesBy(k, a * c, m);
  }

  /** A common multiple that divides all others, with the sign of a times b; 0 for two zeros. */
  method Lcm(a: int, b: int) returns (l: int, g: int)
    ensures IsGcd(g, a, b)
    ensures Divides(a, l) && Divides(b, l)
    ensures forall m :: Divides(a, m) && Divides(b, m) ==> Divides(l, m)
    ensures l * g == a * b
  {
    g := Gcf(a, b);
    if g == 0 {
      l := 0;
      DividesBy(0, 0, 0);
    } else {
      var c := FloorDiv(b, g);
      ExactDivision(g, b);
      l := a * c;
      LcmIsMultiple(a, b, g, c);
      forall m | Divides(a, m) && Divides(b, m) ensures Divides(l, m) {
        LcmDividesMultiples(a, b, g, c, m);
      }
    }
  }

  lemma LcmIsMultiple(a: int, b: int, g: int, c: int)
    requires IsGcd(g, a, b) && g > 0 && c * g == b
    ensures Divides(a, a * c) && Divides(b, a * c) && (a * c) * g == a * b
  {
    DividesBy(c, a, a * c);
    var k := Quotient(g, a);
    assert a * c == (k * g) * c == k * (c * g);
    DividesBy(k, b, a * c);
    assert (a * c) * g == a * (c * g);
  }

  // -------------------------------------------------------------------- reduce_fraction

  datatype FractionResult = Fraction(numerator: int, denominator: int) | ZeroDivisionError

  /** Dividing both numbers by their gcd leaves a coprime pair. */
  lemma QuotientsCoprime(a: int, b: int, g: int, p: int, q: int)
    requires g > 0 && IsCombination(a, b, g) && p * g == a && q * g == b
    ensures IsGcd(1, p, q) && p * b == a * q
  {
    var x, y :| Combine(a, b, x, y) == g;
    assert (p * x + q * y) * g == 1 * g by {
      assert (p * x + q * y) * g == (p * g) * x + (q * g) * y;
    }
    CancelFactor(p * x + q * y, 1, g);
    DividesBy(p, 1, p);
    DividesBy(q, 1, q);
    forall d | Divides(d, p) && Divides(d, q) ensures Divides(d, 1) {
      DividesCombination(d, p, q, x, y);
    }
    assert p * b == p * (q * g) == (p * g) * q;
  }

  /** The same fraction in lowest terms; only 0/0 raises. */
  method ReduceFraction(numerator: int, denominator: int) returns (r: FractionResult)
    ensures r.ZeroDivisionError? <==> numerator == 0 && denominator == 0
    ensures r.Fraction? ==>
      IsGcd(1, r.numerator, r.denominator) && r.numerator * denominator == numerator * r.denominator
    ensures r.Fraction? ==> exists g ::
      IsGcd(g, numerator, denominator) && g > 0 && r.numerator * g == numerator && r.denominator * g == denominator
  {
    var commonFactor := Gcf(numerator, denominator);
    if commonFactor == 0 {
      return ZeroDivisionError;
    }
    ExactDivision(commonFactor, numerator);
    ExactDivision(commonFactor, denominator);
    var p, q := FloorDiv(numerator, commonFactor), FloorDiv(denominator, commonFactor);
    QuotientsCoprime(numerator, denominator, commonFactor, p, q);
    return Fraction(p, q);
  }
}
