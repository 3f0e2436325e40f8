/** Doubling of Edwards25519 points, and the small-order test built on it. */
module PointDoubling {
  import opened Common
  import opened Wire
  import opened Point
  import PointExact

  function ProductOf(p: CurvePoint): (r: nat)
    ensures r < FIELD
  {
    CurveD() * (p.x * p.x % FIELD) * (p.y * p.y % FIELD) % FIELD
  }

  function Double(p: CurvePoint): (r: CurvePoint)
    ensures r.x < FIELD && r.y < FIELD
  {
    var xSquared, ySquared, product := p.x * p.x % FIELD, p.y * p.y % FIELD, ProductOf(p);
    CurvePoint(2 * p.x * p.y * Pow(1 + product, FIELD - 2, FIELD) % FIELD,
               (ySquared + xSquared) * Pow(1 - product, FIELD - 2, FIELD) % FIELD)
  }

  const IDENTITY := CurvePoint(0, 1)

  function DoubledTimes(p: CurvePoint, count: nat): (r: CurvePoint)
    decreases count
  {
    if count == 0 then p else DoubledTimes(Double(p), count - 1)
  }

  /** The addition law of the curve (section 5.1.4 of RFC 8032, in affine coordinates). */
  function Sum(p: CurvePoint, q: CurvePoint): (r: CurvePoint)
    ensures r.x < FIELD && r.y < FIELD
  {
    var product := CurveD() * (p.x * q.x) * (p.y * q.y);
    CurvePoint((p.x * q.y + q.x * p.y) * Pow(1 + product, FIELD - 2, FIELD) % FIELD,
               (p.y * q.y + p.x * q.x) * Pow(1 - product, FIELD - 2, FIELD) % FIELD)
  }

  function EightTimes(p: CurvePoint): (r: CurvePoint) {
    var twice := Sum(p, p);
    var fourTimes := Sum(twice, twice);
    Sum(fourTimes, fourTimes)
  }

  /** A point has small order when eight times it, by the addition law, is the identity. */
  method HasSmallOrder(point: CurvePoint) returns (small: bool)
    ensures small <==> EightTimes(point) == IDENTITY
  {
    hide Double, EightTimes;
    var current := point;
    for i := 0 to 3
      invariant DoubledTimes(point, 3) == DoubledTimes(current, 3 - i)
    {
      current := Double(current);
    }
    ThreeDoublingsAreEightTimes(point);
    small := current == IDENTITY;
  }

  // --- Congruences ----------------------------------------------------------------------------------

  lemma ProductsAgree(a: int, b: int, c: int, d: int, m: nat)
    requires m > 0 && a % m == b % m && c % m == d % m
    ensures a * c % m == b * d % m
  {
    ModCongruence(a, b, c, m);
    ModCongruence(c, d, b, m);
    assert c * b == b * c && d * b == b * d;
  }

  lemma SumsAgree(a: int, b: int, c: int, d: int, m: nat)
    requires m > 0 && a % m == b % m && c % m == d % m
    ensures (a + c) % m == (b + d) % m && (a - c) % m == (b - d) % m
  {
    ModCongruence(a, b, c, m);
    ModCongruence(c, d, b, m);
    ProductsAgree(-1, -1, c, d, m);
    ModCongruence(a, b, -c, m);
    ModCongruence(-c, -d, b, m);
  }

  lemma FactorCancels(a: int, b: int, factor: int, inverse: int, m: nat)
    requires m > 1 && factor * inverse % m == 1 && a * factor % m == b * factor % m
    ensures a % m == b % m
  {
    ModCongruence(a * factor, b * factor, inverse, m);
    UnitDrops(a, factor, inverse, m);
    UnitDrops(b, factor, inverse, m);
  }

  lemma UnitDrops(a: int, factor: int, inverse: int, m: nat)
    requires m > 1 && factor * inverse % m == 1
    ensures a * factor * inverse % m == a % m
  {
    ProductsAgree(factor * inverse, 1, a, a, m);
    assert a * factor * inverse == factor * inverse * a;
  }

  lemma {:induction false} PowerOfRemainder(base: int, exponent: nat, m: nat)
    requires m > 0
    ensures Pow(base, exponent, m) == Pow(base % m, exponent, m)
  {
    if exponent > 0 {
      PowerOfRemainder(base, exponent - 1, m);
      ModFactor(base, Pow(base, exponent - 1, m), m);
    }
  }

  // --- Doubling is adding a point to itself --------------------------------------------------------------

  lemma SamePower(a: int, b: int, exponent: nat, m: nat)
    requires m > 0 && a % m == b % m
    ensures Pow(a, exponent, m) == Pow(b, exponent, m)
  {
    PowerOfRemainder(a, exponent, m);
    PowerOfRemainder(b, exponent, m);
  }

  /** Reducing the squares first, and the product, changes neither denominator. */
  lemma ReducedProduct(x: int, y: int, d: int, m: nat)
    requires m > 0
    ensures var reduced := d * (x * x % m) * (y * y % m) % m;
            && (1 + reduced) % m == (1 + d * (x * x) * (y * y)) % m
            && (1 - reduced) % m == (1 - d * (x * x) * (y * y)) % m
  {
    ModSum(x * x, 0, m);
    ModSum(y * y, 0, m);
    ProductsAgree(d, d, x * x % m, x * x, m);
    ProductsAgree(d * (x * x % m), d * (x * x), y * y % m, y * y, m);
    ModSum(d * (x * x % m) * (y * y % m), 0, m);
    SumsAgree(1, 1, d * (x * x % m) * (y * y % m) % m, d * (x * x) * (y * y), m);
  }

  lemma ReducedNumerator(x: int, y: int, inverse: int, m: nat)
    requires m > 0
    ensures (y * y % m + x * x % m) * inverse % m == (y * y + x * x) * inverse % m
  {
    ModSum(x * x, 0, m);
    ModSum(y * y, 0, m);
    SumsAgree(y * y % m, y * y, x * x % m, x * x, m);
    ProductsAgree(y * y % m + x * x % m, y * y + x * x, inverse, inverse, m);
  }

  lemma DoublingIsAddition(p: CurvePoint)
    ensures Double(p) == Sum(p, p)
  {
    hide Pow, CurveD;
    var product := CurveD() * (p.x * p.x) * (p.y * p.y);
    ReducedProduct(p.x, p.y, CurveD(), FIELD);
    SamePower(1 + ProductOf(p), 1 + product, FIELD - 2, FIELD);
    SamePower(1 - ProductOf(p), 1 - product, FIELD - 2, FIELD);
    ReducedNumerator(p.x, p.y, Pow(1 - product, FIELD - 2, FIELD), FIELD);
    assert 2 * p.x * p.y == p.x * p.y + p.x * p.y;
  }

  lemma ThreeDoublingsAreEightTimes(p: CurvePoint)
    ensures DoubledTimes(p, 3) == EightTimes(p)
  {
    hide Double, Sum;
    DoublingIsAddition(p);
    DoublingIsAddition(Double(p));
    DoublingIsAddition(Double(Double(p)));
    assert DoubledTimes(p, 3) == DoubledTimes(Double(p), 2) == DoubledTimes(Double(Double(p)), 1);
    assert DoubledTimes(Double(Double(Double(p))), 0) == Double(Double(Double(p)));
  }

  lemma {:induction false} PowersOfOne(exponent: nat, m: nat)
    requires m > 1
    ensures Pow(1, exponent, m) == 1
  {
    if exponent > 0 {
      PowersOfOne(exponent - 1, m);
    }
  }

  /** The identity of the test is the neutral element of the law. */
  lemma IdentityIsNeutral(p: CurvePoint)
    requires p.x < FIELD && p.y < FIELD
    ensures Sum(p, IDENTITY) == p
  {
    hide Pow, CurveD;
    assert CurveD() * (p.x * 0) * (p.y * 1) == 0;
    PowersOfOne(FIELD - 2, FIELD);
    Reduced(p.x, FIELD);
    Reduced(p.y, FIELD);
  }

  // --- The doubled point is on the curve ---------------------------------------------------------------

  /** The polynomial identity behind doubling, in the squares of the two denominators. */
  lemma DenominatorsBalance(u: int, v: int, q: int, p: int)
    requires u - v == 4 * p
    ensures (u + 4 * q) * u - 4 * q * v == u * v + 4 * p * (u + 4 * q)
  {
    assert (u + 4 * q) * u - 4 * q * v == u * u + 4 * q * (u - v);
    assert u * v + (u - v) * (u + 4 * q) == u * u + 4 * q * (u - v);
  }

  lemma LeftSide(s: int, t: int, u: int, v: int, q: int, m: nat)
    requires m > 0 && s * u % m == 4 * q % m && t * v % m == (u + 4 * q) % m
    ensures (t - s) * (u * v) % m == ((u + 4 * q) * u - 4 * q * v) % m
  {
    ProductsAgree(t * v, u + 4 * q, u, u, m);
    ProductsAgree(s * u, 4 * q, v, v, m);
    SumsAgree(t * v * u, (u + 4 * q) * u, s * u * v, 4 * q * v, m);
    assert (t - s) * (u * v) == t * v * u - s * u * v;
  }

  lemma ScaledProduct(d: int, a: int, b: int, q: int, w: int, p: int, m: nat)
    requires m > 0 && a % m == 4 * q % m && b % m == w % m && d * q % m == p % m
    ensures d * (a * b) % m == 4 * p * w % m
  {
    ProductsAgree(a, 4 * q, b, w, m);
    ProductsAgree(d, d, a * b, 4 * q * w, m);
    ProductsAgree(d * q, p, 4 * w, 4 * w, m);
    Scale(d, q, w);
    Scale(1, p, w);
  }

  lemma Scale(d: int, q: int, w: int)
    ensures d * (4 * q * w) == d * q * (4 * w)
  {
  }

  lemma Distribute(d: int, s: int, t: int, u: int, v: int)
    ensures (1 + d * s * t) * (u * v) == u * v + d * (s * u * (t * v))
  {
    var k := s * t;
    assert d * s * t == d * k;
    assert s * u * (t * v) == k * (u * v);
    assert (1 + d * k) * (u * v) == u * v + d * k * (u * v);
    assert d * k * (u * v) == d * (k * (u * v));
  }

  lemma RightSide(s: int, t: int, u: int, v: int, q: int, p: int, d: int, m: nat)
    requires m > 0 && s * u % m == 4 * q % m && t * v % m == (u + 4 * q) % m && d * q % m == p % m
    ensures (1 + d * s * t) * (u * v) % m == (u * v + 4 * p * (u + 4 * q)) % m
  {
    ScaledProduct(d, s * u, t * v, q, u + 4 * q, p, m);
    SumsAgree(u * v, u * v, d * (s * u * (t * v)), 4 * p * (u + 4 * q), m);
    Distribute(d, s, t, u, v);
  }

  /** From the two quotients' squares to the curve equation, over any modulus where the denominators invert. */
  lemma QuotientsSolveTheCurve(s: int, t: int, u: int, v: int, q: int, p: int, d: int, inverse: int, m: nat)
    requires m > 1 && s * u % m == 4 * q % m && t * v % m == (u + 4 * q) % m && d * q % m == p % m
    requires u - v == 4 * p && u * v * inverse % m == 1
    ensures (t - s) % m == (1 + d * s * t) % m
  {
    LeftSide(s, t, u, v, q, m);
    RightSide(s, t, u, v, q, p, d, m);
    DenominatorsBalance(u, v, q, p);
    FactorCancels(t - s, 1 + d * s * t, u * v, inverse, m);
  }

  /** A quotient, multiplied by its denominator and squared. */
  lemma SquaredQuotient(numerator: int, denominator: int, inverse: int, quotient: int, m: nat)
    requires m > 1 && denominator * inverse % m == 1 && quotient == numerator * inverse % m
    ensures quotient * quotient * (denominator * denominator) % m == numerator * numerator % m
  {
    Cancel(numerator, inverse, denominator, m);
    ProductsAgree(quotient * denominator, numerator, quotient * denominator, numerator, m);
    assert quotient * denominator * (quotient * denominator) == quotient * quotient * (denominator * denominator);
  }

  lemma SquareOfSum(a: int, b: int, u: int, m: nat)
    requires m > 0 && (b - a) % m == u % m
    ensures (b + a) * (b + a) % m == (u * u + 4 * (a * b)) % m
  {
    ProductsAgree(b - a, u, b - a, u, m);
    assert (b + a) * (b + a) == (b - a) * (b - a) + 4 * (a * b);
    ModCongruence((b - a) * (b - a), u * u, 4 * (a * b), m);
  }

  lemma SquaresOfUnits(u: int, v: int, i: int, j: int, m: nat)
    requires m > 1 && u * i % m == 1 && v * j % m == 1
    ensures u * u * (v * v) * (i * i * (j * j)) % m == 1
  {
    ProductsAgree(u * i, 1, u * i, 1, m);
    ProductsAgree(v * j, 1, v * j, 1, m);
    ProductsAgree(u * i * (u * i), 1, v * j * (v * j), 1, m);
    Regrouped(u, v, i, j);
  }

  lemma Regrouped(u: int, v: int, i: int, j: int)
    ensures u * u * (v * v) * (i * i * (j * j)) == u * i * (u * i) * (v * j * (v * j))
  {
    assert u * i * (u * i) == u * u * (i * i);
    assert v * j * (v * j) == v * v * (j * j);
    var a, b, c, d := u * u, v * v, i * i, j * j;
    assert a * b * (c * d) == a * c * (b * d);
  }

  /** The two denominators of doubling, in the field. */
  predicate CanDouble(p: CurvePoint) {
    (1 + ProductOf(p)) % FIELD != 0 && (1 - ProductOf(p)) % FIELD != 0
  }

  lemma InverseOf(a: int)
    requires Fermat() && a % FIELD != 0
    ensures a * Pow(a, FIELD - 2, FIELD) % FIELD == 1
  {
    PowerOfRemainder(a, FIELD - 2, FIELD);
    InverseByFermat(a % FIELD);
    ModFactor(a, Pow(a, FIELD - 2, FIELD), FIELD);
  }

  lemma FourTimes(x: int, y: int, a: int, b: int, m: nat)
    requires m > 0 && a % m == x * x % m && b % m == y * y % m
    ensures 2 * x * y * (2 * x * y) % m == 4 * (a * b) % m
  {
    ProductsAgree(a, x * x, b, y * y, m);
    ProductsAgree(4, 4, a * b, x * x * (y * y), m);
    SquareOfProduct(x, y);
  }

  lemma SquareOfProduct(x: int, y: int)
    ensures 2 * x * y * (2 * x * y) == 4 * (x * x * (y * y))
  {
    var k := x * y;
    assert 2 * x * y == 2 * k;
    assert k * k == x * x * (y * y);
  }

  /** The curve equation, over the reduced squares. */
  lemma ReducedEquation(x: int, y: int, a: int, b: int, p: int, d: int, m: nat)
    requires m > 0 && a % m == x * x % m && b % m == y * y % m && p % m == d * a * b % m
    requires (y * y - x * x) % m == (1 + d * (x * x) * (y * y)) % m
    ensures (b - a) % m == (1 + p) % m
  {
    SumsAgree(b, y * y, a, x * x, m);
    ProductsAgree(d, d, a, x * x, m);
    ProductsAgree(d * a, d * (x * x), b, y * y, m);
    SumsAgree(1, 1, p, d * (x * x) * (y * y), m);
  }

  /** Doubling over any modulus where the two denominators have inverses. */
  lemma DoublingSolvesTheCurve(
    x: int, y: int, a: int, b: int, p: int, d: int, i: int, j: int, x2: int, y2: int, m: nat)
    requires m > 1 && a % m == x * x % m && b % m == y * y % m && p % m == d * a * b % m
    requires (y * y - x * x) % m == (1 + d * (x * x) * (y * y)) % m
    requires (1 + p) * i % m == 1 && (1 - p) * j % m == 1
    requires x2 == 2 * x * y * i % m && y2 == (b + a) * j % m
    ensures (y2 * y2 - x2 * x2) % m == (1 + d * (x2 * x2) * (y2 * y2)) % m
  {
    var u, v, q := (1 + p) * (1 + p), (1 - p) * (1 - p), a * b;
    ReducedEquation(x, y, a, b, p, d, m);
    SquaredQuotient(2 * x * y, 1 + p, i, x2, m);
    FourTimes(x, y, a, b, m);
    SquaredQuotient(b + a, 1 - p, j, y2, m);
    SquareOfSum(a, b, 1 + p, m);
    SquaresOfUnits(1 + p, 1 - p, i, j, m);
    DifferenceIsFour(p);
    assert d * a * b == d * q;
    QuotientsSolveTheCurve(x2 * x2, y2 * y2, u, v, q, p, d, i * i * (j * j), m);
  }

  lemma DifferenceIsFour(p: int)
    ensures (1 + p) * (1 + p) - (1 - p) * (1 - p) == 4 * p
  {
  }

  lemma ReducedDoubling(x: int, y: int, d: int, i: int, j: int, m: nat)
    requires m > 1 && (y * y - x * x) % m == (1 + d * (x * x) * (y * y)) % m
    requires (1 + d * (x * x % m) * (y * y % m) % m) * i % m == 1
    requires (1 - d * (x * x % m) * (y * y % m) % m) * j % m == 1
    ensures var x2, y2 := 2 * x * y * i % m, (y * y % m + x * x % m) * j % m;
            (y2 * y2 - x2 * x2) % m == (1 + d * (x2 * x2) * (y2 * y2)) % m
  {
    var a, b := x * x % m, y * y % m;
    ModSum(x * x, 0, m);
    ModSum(y * y, 0, m);
    ModSum(d * a * b, 0, m);
    DoublingSolvesTheCurve(x, y, a, b, d * a * b % m, d, i, j, 2 * x * y * i % m, (b + a) * j % m, m);
  }

  /** Doubling a point of the curve gives a point of the curve, wherever its denominators do not vanish. */
  lemma DoublingStaysOnTheCurve(p: CurvePoint)
    requires Fermat() && OnCurve(p) && CanDouble(p)
    ensures OnCurve(Double(p))
  {
    hide Pow, CurveD, Fermat;
    InverseOf(1 + ProductOf(p));
    InverseOf(1 - ProductOf(p));
    ReducedDoubling(p.x, p.y, CurveD(), Pow(1 + ProductOf(p), FIELD - 2, FIELD),
                    Pow(1 - ProductOf(p), FIELD - 2, FIELD), FIELD);
  }

  // --- Doubling has no exceptions ------------------------------------------------------------------------

  predicate Inverts(a: int, inverse: int, m: nat) {
    m > 1 && a * inverse % m == 1
  }

  predicate SquaresTo(z: int, square: int, m: nat) {
    m > 1 && z * z % m == square
  }

  /** A constant times a square, in the field. */
  predicate TimesSquareIs(d: int, w: int, e: int, m: nat) {
    m > 1 && d * (w * w) % m == e
  }

  /** The curve constant is no square in the field, which is what makes the addition law complete. */
  ghost predicate ConstantIsNoSquare() {
    forall z: nat | z < FIELD :: !SquaresTo(z, CurveD(), FIELD)
  }

  /** A factor with a square beside it, divided out. */
  lemma DividedBySquare(d: int, w: int, e: int, inverse: int, m: nat)
    requires m > 1 && d * (w * w) % m == e % m && w * inverse % m == 1
    ensures d % m == e * (inverse * inverse) % m
  {
    ProductsAgree(w * inverse, 1, w * inverse, 1, m);
    ProductsAgree(d * (w * w), e, inverse * inverse, inverse * inverse, m);
    ProductsAgree(w * inverse * (w * inverse), 1, d, d, m);
    SquaresRegroup(d, w, inverse);
  }

  lemma SquaresRegroup(d: int, w: int, i: int)
    ensures d * (w * w) * (i * i) == w * i * (w * i) * d
  {
    var a, b := w * w, i * i;
    assert w * i * (w * i) == a * b;
    assert d * a * b == a * b * d;
  }

  lemma SquareReduces(z: int, m: nat)
    requires m > 0
    ensures (z % m) * (z % m) % m == z * z % m
  {
    ModSum(z, 0, m);
    ProductsAgree(z % m, z, z % m, z, m);
  }

  /** With d times the square of k equal to one, the inverse of k squares to d. */
  lemma RootFromOne(k: int, inverse: int, d: nat, m: nat)
    requires d < m && TimesSquareIs(d, k, 1, m) && Inverts(k, inverse, m)
    ensures SquaresTo(inverse, d, m)
  {
    Reduced(1, m);
    DividedBySquare(d, k, 1, inverse, m);
    Reduced(d, m);
  }

  /** With d times the square of w equal to minus one, which is itself a square, d is a square again. */
  lemma RootFromMinusOne(w: int, i: int, inverse: int, d: nat, m: nat)
    requires d < m && TimesSquareIs(d, w, m - 1, m) && SquaresTo(i, m - 1, m) && Inverts(w, inverse, m)
    ensures SquaresTo(i * inverse % m, d, m)
  {
    Reduced(m - 1, m);
    DividedBySquare(d, w, i * i, inverse, m);
    Reduced(d, m);
    SquareReduces(i * inverse, m);
    assert i * i * (inverse * inverse) == i * inverse * (i * inverse);
  }

  lemma NothingTimes(d: int, w: int, m: nat)
    requires m > 1 && w % m == 0
    ensures TimesSquareIs(d, w, 0, m)
  {
    ProductsAgree(w, 0, w, 0, m);
    ProductsAgree(d, d, w * w, 0, m);
  }

  lemma OneProductOnly(d: int, w: int, a: int, b: int, m: nat)
    requires TimesSquareIs(d, w, a, m) && TimesSquareIs(d, w, b, m)
    ensures a == b
  {
  }

  lemma InvertsByFermat(a: int)
    requires Fermat() && a % FIELD != 0
    ensures Inverts(a, Pow(a, FIELD - 2, FIELD), FIELD)
  {
    InverseOf(a);
  }

  lemma MinusOneIsASquare()
    requires PointExact.PrimeField()
    ensures SquaresTo(SqrtMinusOne(), FIELD - 1, FIELD)
  {
    PointExact.SqrtMinusOneSquares();
  }

  lemma NoRoot(z: nat)
    requires ConstantIsNoSquare() && z < FIELD
    ensures !SquaresTo(z, CurveD(), FIELD)
  {
  }

  lemma NotOneOverSquare(k: int)
    requires Fermat() && ConstantIsNoSquare()
    ensures !TimesSquareIs(CurveD(), k, 1, FIELD)
  {
    hide Pow, CurveD, Fermat, ConstantIsNoSquare, TimesSquareIs, SquaresTo, Inverts;
    if k % FIELD == 0 {
      NothingTimes(CurveD(), k, FIELD);
      if TimesSquareIs(CurveD(), k, 1, FIELD) {
        OneProductOnly(CurveD(), k, 0, 1, FIELD);
      }
    } else if TimesSquareIs(CurveD(), k, 1, FIELD) {
      InvertsByFermat(k);
      NoRoot(Pow(k, FIELD - 2, FIELD));
      RootFromOne(k, Pow(k, FIELD - 2, FIELD), CurveD(), FIELD);
    }
  }

  lemma NotMinusOneOverSquare(w: int)
    requires PointExact.PrimeField() && ConstantIsNoSquare()
    ensures !TimesSquareIs(CurveD(), w, FIELD - 1, FIELD)
  {
    hide Pow, CurveD, Fermat, ConstantIsNoSquare, TimesSquareIs, SquaresTo, Inverts, PointExact.PrimeField,
         SqrtMinusOne;
    if w % FIELD == 0 {
      NothingTimes(CurveD(), w, FIELD);
      if TimesSquareIs(CurveD(), w, FIELD - 1, FIELD) {
        OneProductOnly(CurveD(), w, 0, FIELD - 1, FIELD);
      }
    } else if TimesSquareIs(CurveD(), w, FIELD - 1, FIELD) {
      PrimeIsFermat();
      InvertsByFermat(w);
      MinusOneIsASquare();
      NoRoot(SqrtMinusOne() * Pow(w, FIELD - 2, FIELD) % FIELD);
      RootFromMinusOne(w, SqrtMinusOne(), Pow(w, FIELD - 2, FIELD), CurveD(), FIELD);
    }
  }

  lemma FirstDenominator(a: nat, b: nat, p: nat, d: nat, m: nat)
    requires m > 1 && p < m && p == d * a * b % m && (b - a) % m == (1 + p) % m && (1 + p) % m == 0
    ensures TimesSquareIs(d, a, m - 1, m)
  {
    SumsAgree(b - a, 0, a, a, m);
    ProductsAgree(d * a, d * a, b, a, m);
    assert d * a * a == d * (a * a);
    OneMore(p, m);
  }

  lemma OneMore(p: nat, m: nat)
    requires m > 1 && p < m
    ensures (1 + p) % m == 0 ==> p == m - 1
    ensures (1 - p) % m == 0 ==> p == 1
  {
    if p < m - 1 {
      Reduced(1 + p, m);
    }
    if p > 1 {
      ModShift(1 - p, 1, m);
      Reduced(m + 1 - p, m);
    }
    Reduced(1, m);
  }

  lemma SecondDenominator(x: int, y: int, a: nat, b: nat, p: nat, d: nat, m: nat)
    requires m > 1 && p < m && p == d * a * b % m && (1 - p) % m == 0
    requires a % m == x * x % m && b % m == y * y % m
    ensures TimesSquareIs(d, x * y, 1, m)
  {
    OneMore(p, m);
    ProductsAgree(a, x * x, b, y * y, m);
    ProductsAgree(d, d, a * b, x * x * (y * y), m);
    assert d * a * b == d * (a * b);
    assert x * y * (x * y) == x * x * (y * y);
  }

  /** Both denominators over any modulus: where one vanishes, d times a square is one or minus one. */
  lemma DenominatorsVanish(x: int, y: int, d: nat, m: nat)
    requires m > 1 && (y * y - x * x) % m == (1 + d * (x * x) * (y * y)) % m
    ensures var a, b := x * x % m, y * y % m;
            && ((1 + d * a * b % m) % m == 0 ==> TimesSquareIs(d, a, m - 1, m))
            && ((1 - d * a * b % m) % m == 0 ==> TimesSquareIs(d, x * y, 1, m))
  {
    hide TimesSquareIs;
    var a, b := x * x % m, y * y % m;
    var p := d * a * b % m;
    ModSum(x * x, 0, m);
    ModSum(y * y, 0, m);
    Reduced(p, m);
    ReducedEquation(x, y, a, b, p, d, m);
    if (1 + p) % m == 0 {
      FirstDenominator(a, b, p, d, m);
    }
    if (1 - p) % m == 0 {
      SecondDenominator(x, y, a, b, p, d, m);
    }
  }

  /** On the curve the denominators of doubling never vanish. */
  lemma DoublingHasNoExceptions(p: CurvePoint)
    requires PointExact.PrimeField() && ConstantIsNoSquare() && OnCurve(p)
    ensures CanDouble(p)
  {
    hide Pow, CurveD, Fermat, PointExact.PrimeField, ConstantIsNoSquare, TimesSquareIs;
    PrimeIsFermat();
    DenominatorsVanish(p.x, p.y, CurveD(), FIELD);
    NotOneOverSquare(p.x * p.y);
    NotMinusOneOverSquare(p.x * p.x % FIELD);
  }

  lemma PrimeIsFermat()
    requires PointExact.PrimeField()
    ensures Fermat()
  {
  }

  /** Every multiple the small-order test passes through is a point of the curve. */
  lemma {:induction false} MultiplesStayOnTheCurve(p: CurvePoint, count: nat)
    requires PointExact.PrimeField() && ConstantIsNoSquare() && OnCurve(p)
    ensures OnCurve(DoubledTimes(p, count))
    decreases count
  {
    hide Double, OnCurve, PointExact.PrimeField, ConstantIsNoSquare, CanDouble, Fermat;
    if count > 0 {
      PrimeIsFermat();
      DoublingHasNoExceptions(p);
      DoublingStaysOnTheCurve(p);
      MultiplesStayOnTheCurve(Double(p), count - 1);
    }
  }
}
