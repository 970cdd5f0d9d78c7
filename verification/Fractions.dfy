/** Greatest common factor, least common multiple and reduced fractions of integers of any sign. */
module Fractions {

  /** Python's modulo: the result has the sign of the divisor. */
  function FloorMod(a: int, b: int): int
    requires b != 0
  {
    if b > 0 then a % b else -((-a) % (-b))
  }

  function FloorDiv(a: int, b: int): int
    requires b != 0
  {
    if b > 0 then a / b else (-a) / (-b)
  }

  function Abs(a: int): nat {
    if a < 0 then -a else a
  }

  ghost predicate Divides(d: int, a: int) {
    exists k :: Times(k, d, a)
  }

  ghost predicate Times(k: int, d: int, a: int) {
    a == k * d
  }

  /** The greatest common divisor in the order of divisibility, which makes 0 that of 0 and 0. */
  ghost predicate IsGcd(g: int, a: int, b: int) {
    && g >= 0 && Divides(g, a) && Divides(g, b)
    && forall d :: Divides(d, a) && Divides(d, b) ==> Divides(d, g)
  }

  // ---------------------------------------------------------------- division

  lemma {:induction false} FloorModSpec(a: int, b: int)
    requires b != 0
    ensures a == FloorDiv(a, b) * b + FloorMod(a, b)
    ensures Abs(FloorMod(a, b)) < Abs(b)
    ensures FloorMod(a, b) != 0 ==> (FloorMod(a, b) > 0 <==> b > 0)
  {
    if b < 0 {
      var q, r := (-a) / (-b), (-a) % (-b);
      assert -a == q * (-b) + r;
      NegTimes(q, b);
    }
  }

  lemma {:induction false} NegTimes(q: int, b: int)
    ensures q * (-b) == -(q * b)
  {
  }

  /** x combined from a and b with whole coefficients. */
  ghost predicate Combines(s: int, t: int, a: int, b: int, x: int) {
    x == s * a + t * b
  }

  lemma {:induction false} DividesCombination(d: int, a: int, b: int, s: int, t: int, x: int)
    requires Divides(d, a) && Divides(d, b) && Combines(s, t, a, b, x)
    ensures Divides(d, x)
  {
    var j :| Times(j, d, a);
    var k :| Times(k, d, b);
    Distribute(s, j, t, k, d);
    assert Times(s * j + t * k, d, x);
  }

  lemma {:induction false} Distribute(s: int, j: int, t: int, k: int, d: int)
    ensures s * (j * d) + t * (k * d) == (s * j + t * k) * d
  {
    assert s * (j * d) == (s * j) * d;
    assert t * (k * d) == (t * k) * d;
  }

  /** What a step of Euclid's algorithm does to a combination: r - q * m. */
  lemma {:induction false} CombineStep(s: int, t: int, u: int, v: int, a: int, b: int, r: int, m: int, q: int)
    requires Combines(s, t, a, b, r) && Combines(u, v, a, b, m)
    ensures Combines(s - q * u, t - q * v, a, b, r - q * m)
  {
    assert q * (u * a + v * b) == (q * u) * a + (q * v) * b by {
      assert q * (u * a) == (q * u) * a && q * (v * b) == (q * v) * b;
    }
    assert (s - q * u) * a == s * a - (q * u) * a;
    assert (t - q * v) * b == t * b - (q * v) * b;
  }

  lemma {:induction false} DividesSelf(d: int)
    ensures Divides(d, d) && Divides(d, 0) && Divides(d, -d)
  {
    assert Times(1, d, d) && Times(0, d, 0) && Times(-1, d, -d);
  }

  lemma {:induction false} DividesNeg(d: int, a: int)
    requires Divides(d, a)
    ensures Divides(d, -a) && Divides(-d, a)
  {
    var k :| Times(k, d, a);
    assert (-k) * d == -(k * d) && (-k) * (-d) == k * d;
    assert Times(-k, d, -a) && Times(-k, -d, a);
  }

  // ---------------------------------------------------------------- gcf

  /** Euclid's loop on integers; the epsilon of the source only matters for floats. */
  method Gcf(a: int, b: int) returns (g: int, ghost s: int, ghost t: int)
    ensures IsGcd(g, a, b)
    ensures Combines(s, t, a, b, g)
  {
    var result := if a >= b then a else b;
    var remainder := if a >= b then b else a;
    s, t := if a >= b then 1 else 0, if a >= b then 0 else 1;
    ghost var u, v := t, s;
    while remainder != 0
      invariant Combines(s, t, a, b, result) && Combines(u, v, a, b, remainder)
      invariant forall d :: Divides(d, result) && Divides(d, remainder) ==> Divides(d, a) && Divides(d, b)
      decreases Abs(remainder)
    {
      FloorModSpec(result, remainder);
      ghost var q := FloorDiv(result, remainder);
      CombineStep(s, t, u, v, a, b, result, remainder, q);
      var newRemainder := FloorMod(result, remainder);
      forall d | Divides(d, remainder) && Divides(d, newRemainder) ensures Divides(d, result) {
        assert Combines(q, 1, remainder, newRemainder, result);
        DividesCombination(d, remainder, newRemainder, q, 1, result);
      }
      s, t, u, v := u, v, s - q * u, t - q * v;
      result := remainder;
      remainder := newRemainder;
    }
    DividesSelf(result);
    g := if result < 0 then -result else result;
    if result < 0 {
      DividesNeg(result, a);
      DividesNeg(result, b);
      assert (-s) * a == -(s * a) && (-t) * b == -(t * b);
      s, t := -s, -t;
    }
    forall d | Divides(d, a) && Divides(d, b) ensures Divides(d, g) {
      DividesCombination(d, a, b, s, t, g);
    }
  }

  lemma {:induction false} ProductZero(k: int, d: int)
    requires k * d == 0 && d != 0
    ensures k == 0
  {
  }

  /** There is only one such divisor. */
  lemma {:induction false} GcdUnique(g: int, h: int, a: int, b: int)
    requires IsGcd(g, a, b) && IsGcd(h, a, b)
    ensures g == h
  {
    DividesBothWays(g, h);
  }

  lemma {:induction false} DividesBothWays(g: int, h: int)
    requires g >= 0 && h >= 0 && Divides(g, h) && Divides(h, g)
    ensures g == h
  {
    if g > 0 { DividesLess(h, g); }
    if h > 0 { DividesLess(g, h); }
    var j :| Times(j, g, h);
    var k :| Times(k, h, g);
  }

  lemma {:induction false} DividesLess(d: int, a: int)
    requires Divides(d, a) && a > 0 && d >= 0
    ensures 0 < d <= a
  {
    var k :| Times(k, d, a);
    PositiveProduct(k, d);
  }

  lemma {:induction false} PositiveProduct(k: int, d: int)
    requires k * d > 0 && d >= 0
    ensures 0 < d <= k * d
  {
    if k > 0 {
      assert k * d == (k - 1) * d + d;
    }
  }

  // ---------------------------------------------------------------- lcm

  /**
    The least common multiple: its product with the greatest common factor is a * b, and it
    divides every common multiple of a and b when neither is 0.  It may be negative.
   */
  method Lcm(a: int, b: int) returns (m: int, ghost g: int)
    ensures IsGcd(g, a, b) && m * g == a * b
    ensures a == 0 || b == 0 ==> m == 0
    ensures a != 0 && b != 0 ==> Divides(a, m) && Divides(b, m)
    ensures a != 0 && b != 0 ==> forall x :: Divides(a, x) && Divides(b, x) ==> Divides(m, x)
  {
    var denom;
    ghost var s, t;
    denom, s, t := Gcf(a, b);
    g := denom;
    if denom == 0 {
      m := 0;
      ZeroGcd(a, b);
    } else {
      m := a * FloorDiv(b, denom);
      Quotient(denom, a);
      Quotient(denom, b);
      LcmProduct(a, b, g, m);
      if a == 0 || b == 0 {
        ProductZero(m, g);
      } else {
        LcmMultiple(a, b, g, m);
        forall x | Divides(a, x) && Divides(b, x) ensures Divides(m, x) {
          LcmLeast(a, b, g, m, s, t, x);
        }
      }
    }
  }

  lemma {:induction false} ZeroGcd(a: int, b: int)
    requires IsGcd(0, a, b)
    ensures a == 0 && b == 0
  {
    var j :| Times(j, 0, a);
    var k :| Times(k, 0, b);
  }

  lemma {:induction false} Quotient(d: int, a: int)
    requires d > 0 && Divides(d, a)
    ensures FloorDiv(a, d) * d == a
  {
    var k :| Times(k, d, a);
    ExactQuotient(k, d);
  }

  lemma {:induction false} ExactQuotient(k: int, d: int)
    requires d > 0
    ensures (k * d) / d == k
  {
    var q, r := (k * d) / d, (k * d) % d;
    SmallMultiple(k, q, d, r);
  }

  /** Division has one quotient: a multiple smaller than the divisor is zero. */
  lemma {:induction false} SmallMultiple(k: int, q: int, d: int, r: int)
    requires 0 <= r < d && k * d == q * d + r
    ensures k == q
  {
    if k < q {
      MultipleGrows(q, k, d);
    } else if k > q {
      MultipleGrows(k, q, d);
    }
  }

  lemma {:induction false} MultipleGrows(k: int, q: int, d: int)
    requires d > 0 && k > q
    ensures k * d >= q * d + d
  {
    assert k * d == (k - q - 1) * d + q * d + d;
  }

  lemma {:induction false} LcmProduct(a: int, b: int, g: int, m: int)
    requires g > 0 && FloorDiv(b, g) * g == b && m == a * FloorDiv(b, g)
    ensures m * g == a * b
  {
    var y := FloorDiv(b, g);
    assert (a * y) * g == a * (y * g);
  }

  lemma {:induction false} LcmMultiple(a: int, b: int, g: int, m: int)
    requires g > 0 && FloorDiv(a, g) * g == a && FloorDiv(b, g) * g == b && m == a * FloorDiv(b, g)
    ensures Divides(a, m) && Divides(b, m)
  {
    var x, y := FloorDiv(a, g), FloorDiv(b, g);
    assert Times(y, a, m);
    assert (x * g) * y == x * (y * g);
    assert Times(x, b, m);
  }

  /** Every common multiple is a multiple of m, by way of the combination that gives g. */
  lemma {:induction false} LcmLeast(a: int, b: int, g: int, m: int, s: int, t: int, x: int)
    requires g > 0 && m * g == a * b && Combines(s, t, a, b, g)
    requires Divides(a, x) && Divides(b, x)
    ensures Divides(m, x)
  {
    var i :| Times(i, a, x);
    var j :| Times(j, b, x);
    var w := j * s + i * t;
    XTimesG(a, b, s, t, i, j);
    Spread(x, s * a, t * b);
    Regroup(w, m, g);
    Cancel(x, w * m, g);
    assert Times(w, m, x);
  }

  lemma {:induction false} Spread(x: int, y: int, z: int)
    ensures x * (y + z) == x * y + x * z
  {
  }

  lemma {:induction false} Regroup(w: int, m: int, g: int)
    ensures w * (m * g) == (w * m) * g
  {
  }

  lemma {:induction false} XTimesG(a: int, b: int, s: int, t: int, i: int, j: int)
    ensures (j * b) * (s * a) + (i * a) * (t * b) == (j * s + i * t) * (a * b)
  {
    Reorder(j, b, s, a);
    Reorder(i, a, t, b);
    Collect(j * s, i * t, a * b);
  }

  lemma {:induction false} Collect(x: int, y: int, z: int)
    ensures x * z + y * z == (x + y) * z
  {
  }

  lemma {:induction false} Reorder(j: int, b: int, s: int, a: int)
    ensures (j * b) * (s * a) == (j * s) * (a * b)
  {
    Regroup(j * b, s, a);
    Regroup(j, b, s);
    Regroup(j, s, b);
    Regroup(j * s, b, a);
  }

  lemma {:induction false} Cancel(x: int, y: int, g: int)
    requires g > 0 && x * g == y * g
    ensures x == y
  {
    assert (x - y) * g == 0;
    ProductZero(x - y, g);
  }

  // ---------------------------------------------------------------- reduce_fraction

  datatype Fraction = Fraction(num: int, den: int)

  datatype Result<T> = Ok(value: T) | ZeroDivision

  /**
    The reduced fraction is equal and has coprime parts.  It exists unless both parts are 0,
    when the common factor is 0 and the division fails.
   */
  method ReduceFraction(f: Fraction) returns (r: Result<Fraction>)
    ensures r.ZeroDivision? <==> f.num == 0 && f.den == 0
    ensures r.Ok? ==> r.value.num * f.den == f.num * r.value.den && IsGcd(1, r.value.num, r.value.den)
    ensures r.Ok? ==> exists g :: IsGcd(g, f.num, f.den) && f.num == r.value.num * g && f.den == r.value.den * g
  {
    var commonFactor;
    ghost var s, t;
    commonFactor, s, t := Gcf(f.num, f.den);
    if commonFactor == 0 {
      ZeroGcd(f.num, f.den);
      return ZeroDivision;
    }
    r := Ok(Fraction(FloorDiv(f.num, commonFactor), FloorDiv(f.den, commonFactor)));
    Quotient(commonFactor, f.num);
    Quotient(commonFactor, f.den);
    Coprime(r.value.num, r.value.den, commonFactor, s, t);
    assert r.value.num * (r.value.den * commonFactor) == (r.value.num * commonFactor) * r.value.den;
  }

  lemma {:induction false} Coprime(x: int, y: int, g: int, s: int, t: int)
    requires g > 0 && Combines(s, t, x * g, y * g, g)
    ensures IsGcd(1, x, y)
    ensures x * g != 0 || y * g != 0
  {
    Distribute(s, x, t, y, g);
    Cancel(s * x + t * y, 1, g);
    assert Times(x, 1, x) && Times(y, 1, y);
    forall d | Divides(d, x) && Divides(d, y) ensures Divides(d, 1) {
      assert Combines(s, t, x, y, 1);
      DividesCombination(d, x, y, s, t, 1);
    }
    if x * g == 0 && y * g == 0 {
      ProductZero(x, g);
      ProductZero(y, g);
    }
  }
}
