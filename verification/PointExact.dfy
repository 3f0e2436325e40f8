/** Decompression accepts exactly the canonical encodings of points on the curve. */
module PointExact {
  import opened Common
  import opened Wire
  import opened Point

  /** What primality of the field modulus gives beyond Fermat: no zero divisors, and 2 is no square. */
  ghost predicate PrimeField() {
    && Fermat()
    && (forall a: nat, b: nat | a < FIELD && b < FIELD :: NoZeroProduct(a, b))
    && Pow(2, (FIELD - 1) / 2, FIELD) == FIELD - 1
  }

  ghost predicate NoZeroProduct(a: nat, b: nat) {
    a * b % FIELD == 0 ==> a == 0 || b == 0
  }

  // --- Powers ------------------------------------------------------------------

  lemma ProductsRegroup(b: int, x: nat, y: nat, m: nat)
    requires m > 1
    ensures b * (x * y % m) % m == (b * x % m) * y % m
  {
    ModFactor(x * y, b, m);
    ModFactor(b * x, y, m);
    assert x * y * b == b * x * y && x * y % m * b == b * (x * y % m);
  }

  lemma {:induction false} PowAdds(b: int, e: nat, f: nat, m: nat)
    requires m > 1
    ensures Pow(b, e + f, m) == Pow(b, e, m) * Pow(b, f, m) % m
  {
    if e == 0 {
      assert Pow(b, 0, m) == 1;
      Reduced(Pow(b, f, m), m);
    } else {
      PowAdds(b, e - 1, f, m);
      ProductsRegroup(b, Pow(b, e - 1, m), Pow(b, f, m), m);
    }
  }

  lemma {:induction false} PowOfPow(b: int, e: nat, f: nat, m: nat)
    requires m > 1
    ensures Pow(Pow(b, e, m), f, m) == Pow(b, e * f, m)
    decreases f
  {
    if f > 0 {
      PowOfPow(b, e, f - 1, m);
      assert e * f == e + e * (f - 1);
      PowAdds(b, e, e * (f - 1), m);
    }
  }

  lemma SmallPowers(b: nat, m: nat)
    requires m > 1 && b < m
    ensures Pow(b, 2, m) == b * b % m
    ensures Pow(b, 4, m) == (b * b % m) * (b * b % m) % m
  {
    assert Pow(b, 0, m) == 1;
    assert Pow(b, 1, m) == b by { Reduced(b, m); }
    PowAdds(b, 2, 2, m);
  }

  // --- Square roots -----------------------------------------------------------------

  lemma DifferenceOfSquares(hi: nat, lo: nat, m: nat)
    requires m > 1 && lo <= hi && hi * hi % m == lo * lo % m
    ensures (hi - lo) * ((hi + lo) % m) % m == 0
  {
    ModCongruence(hi * hi, lo * lo, -(lo * lo), m);
    assert (hi + lo) * (hi - lo) == hi * hi - lo * lo;
    ModFactor(hi + lo, hi - lo, m);
    assert (hi - lo) * ((hi + lo) % m) == (hi + lo) % m * (hi - lo);
  }

  /** Two reduced elements with one square are equal or opposite. */
  lemma SquareRoots(a: nat, b: nat)
    requires PrimeField() && a < FIELD && b < FIELD
    requires a * a % FIELD == b * b % FIELD
    ensures a == b || a + b == FIELD || a + b == 0
  {
    if a >= b {
      DifferenceOfSquares(a, b, FIELD);
    } else {
      DifferenceOfSquares(b, a, FIELD);
    }
    assert NoZeroProduct(if a >= b then a - b else b - a, (a + b) % FIELD);
  }

  /** The candidate c of a square x^2 has c^4 = x^4. */
  lemma CandidateFourthPower(x: nat)
    requires Fermat() && x < FIELD
    ensures var c := Pow(x * x % FIELD, (FIELD + 3) / 8, FIELD);
            Pow(c, 4, FIELD) == Pow(x, 4, FIELD)
  {
    hide Pow;
    var k := (FIELD + 3) / 8;
    SmallPowers(x, FIELD);
    PowOfPow(x, 2, k, FIELD);
    PowOfPow(x, 2 * k, 4, FIELD);
    assert 2 * k * 4 == FIELD - 1 + 4;
    PowAdds(x, FIELD - 1, 4, FIELD);
    if x == 0 {
      ZeroPowers(2 * k * 4);
      ZeroPowers(4);
    } else {
      FermatAt(x);
      Reduced(Pow(x, 4, FIELD), FIELD);
    }
  }

  lemma FermatAt(x: nat)
    requires Fermat() && 0 < x < FIELD
    ensures Pow(x, FIELD - 1, FIELD) == 1
  {
    assert ReturnsToOne(x);
  }

  lemma ZeroPowers(e: nat)
    requires e > 0
    ensures Pow(0, e, FIELD) == 0
  {
  }

  /** The candidate squares to x^2 or to its opposite. */
  lemma CandidateSquare(x: nat)
    requires PrimeField() && x < FIELD
    ensures var c := Pow(x * x % FIELD, (FIELD + 3) / 8, FIELD);
            c * c % FIELD == x * x % FIELD || c * c % FIELD + x * x % FIELD == FIELD
  {
    hide Pow, Fermat;
    var c := Pow(x * x % FIELD, (FIELD + 3) / 8, FIELD);
    assert Fermat();
    CandidateFourthPower(x);
    SmallPowers(c, FIELD);
    SmallPowers(x, FIELD);
    SquareRoots(c * c % FIELD, x * x % FIELD);
  }

  lemma SqrtMinusOneSquares()
    requires PrimeField()
    ensures SqrtMinusOne() * SqrtMinusOne() % FIELD == FIELD - 1
  {
    hide Pow;
    var q := (FIELD - 1) / 4;
    PowAdds(2, q, q, FIELD);
    assert q + q == (FIELD - 1) / 2;
  }

  lemma SquareOfProduct(c: nat, i: nat, m: nat)
    requires m > 1
    ensures (c * i % m) * (c * i % m) % m == (c * c % m) * (i * i % m) % m
  {
    ModFactor(c * i, c * i % m, m);
    ModFactor(c * i, c * i, m);
    assert c * i * (c * i % m) == c * i % m * (c * i);
    ModFactor(c * c, i * i % m, m);
    ModFactor(i * i, c * c, m);
    assert c * c * (i * i % m) == i * i % m * (c * c);
    assert c * i * (c * i) == i * i * (c * c);
  }

  lemma ComplementProduct(s: int, m: int)
    ensures (m - s) * (m - 1) == s + m * (m - s - 1)
  {
    var k := m - s;
    assert k * (m - 1) == k * m - k;
  }

  /** Turning by the root of minus one flips the sign of a square. */
  lemma TurnedSquare(c: nat, i: nat, s: nat, m: nat)
    requires m > 1 && i * i % m == m - 1 && s < m && c * c % m + s == m
    ensures var t := c * i % m; t * t % m == s
  {
    SquareOfProduct(c, i, m);
    ComplementProduct(s, m);
    ModShift(s, m - s - 1, m);
    Reduced(s, m);
  }

  /** Every square is recognised: the root found squares to it. */
  lemma RootOfSquare(x: nat)
    requires PrimeField() && x < FIELD
    ensures var r := Root(x * x % FIELD); r * r % FIELD == x * x % FIELD
  {
    hide Pow, Fermat;
    var s := x * x % FIELD;
    var c := Pow(s, (FIELD + 3) / 8, FIELD);
    CandidateSquare(x);
    if c * c % FIELD != s {
      SqrtMinusOneSquares();
      TurnedSquare(c, SqrtMinusOne(), s, FIELD);
    }
  }

  // --- The denominator and the target --------------------------------------------------

  /** The curve constant is not minus one. */
  lemma CurveConstant()
    requires Fermat()
    ensures (CurveD() + 1) % FIELD != 0
  {
    hide Pow;
    var inverse := Pow(121666, FIELD - 2, FIELD);
    InverseByFermat(121666);
    Cancel(-121665, inverse, 121666, FIELD);
    assert CurveD() * 121666 % FIELD == -121665 % FIELD;
    ModCongruence(CurveD() * 121666, -121665, 121666, FIELD);
    assert (CurveD() + 1) * 121666 == CurveD() * 121666 + 121666;
    ModFactor(CurveD() + 1, 121666, FIELD);
  }

  /** The curve equation, in the quotient form decompression solves. */
  lemma QuotientFromEquation(x2: int, y2: int, d: int, m: nat)
    requires m > 1 && (y2 - x2) % m == (1 + d * x2 * y2) % m
    ensures x2 * (d * y2 + 1) % m == (y2 - 1) % m
  {
    ModCongruence(y2 - x2, 1 + d * x2 * y2, x2 - 1, m);
    assert x2 * (d * y2 + 1) == d * x2 * y2 + x2;
  }

  /** A quotient is determined by the product it came from. */
  lemma QuotientIsUnique(a: nat, s: nat, divisor: int, inverse: int, m: nat)
    requires m > 1 && a < m && s < m && divisor * inverse % m == 1
    requires a * divisor % m == s * divisor % m
    ensures a == s
  {
    ModCongruence(a * divisor, s * divisor, inverse, m);
    assert a * divisor * inverse == (divisor * inverse) * a;
    assert s * divisor * inverse == (divisor * inverse) * s;
    ModFactor(divisor * inverse, a, m);
    ModFactor(divisor * inverse, s, m);
    Reduced(a, m);
    Reduced(s, m);
  }

  lemma MultipleOfZero(a: int, b: int, m: nat)
    requires m > 1 && a % m == 0
    ensures a * b % m == 0 && b * a % m == 0
  {
    ModFactor(a, b, m);
    assert b * a == a * b;
  }

  lemma ZeroDenominator(x2: int, y2: int, d: int, m: nat)
    requires m > 1 && (y2 - x2) % m == (1 + d * x2 * y2) % m && (d * y2 + 1) % m == 0
    ensures (d + 1) % m == 0
  {
    var a, b := d * y2 + 1, y2 - 1;
    QuotientFromEquation(x2, y2, d, m);
    MultipleOfZero(a, x2, m);
    MultipleOfZero(b, -d, m);
    ModSum(b * -d, a, m);
    Leftover(y2, d);
  }

  lemma Leftover(y2: int, d: int)
    ensures (y2 - 1) * -d + (d * y2 + 1) == d + 1
  {
  }

  lemma DenominatorIsNotZero(p: CurvePoint)
    requires PrimeField() && OnCurve(p)
    ensures (CurveD() * (p.y * p.y % FIELD) + 1) % FIELD != 0
    ensures (CurveD() * (p.y * p.y % FIELD) + 1) % FIELD == (CurveD() * (p.y * p.y) + 1) % FIELD
  {
    hide Pow, CurveD, Fermat;
    ReducedDenominator(p.y * p.y, CurveD(), FIELD);
    CurveConstant();
    if (CurveD() * (p.y * p.y) + 1) % FIELD == 0 {
      ZeroDenominator(p.x * p.x, p.y * p.y, CurveD(), FIELD);
      assert false;
    }
  }

  /** On the curve, the target square is the square of x. */
  lemma TargetIsTheSquare(p: CurvePoint)
    requires PrimeField() && OnCurve(p)
    ensures TargetSquare(p.y) == Some(p.x * p.x % FIELD)
  {
    hide Pow, CurveD, Fermat;
    var x2, y2, d := p.x * p.x, p.y * p.y, CurveD();
    DenominatorIsNotZero(p);
    var denominator := (d * (y2 % FIELD) + 1) % FIELD;
    assert Fermat();
    TargetSolvesTheEquation(p.y);
    QuotientFromEquation(x2, y2, d, FIELD);
    InverseByFermat(denominator);
    var s := TargetSquare(p.y).value;
    SameProducts(x2, s, d * y2 + 1);
    QuotientIsUnique(x2 % FIELD, s, denominator, Pow(denominator, FIELD - 2, FIELD), FIELD);
  }

  lemma SameProducts(x2: int, s: nat, divisor: int)
    requires s < FIELD && x2 * divisor % FIELD == s * divisor % FIELD
    ensures (x2 % FIELD) * (divisor % FIELD) % FIELD == s * (divisor % FIELD) % FIELD
  {
    ModFactor(x2, divisor % FIELD, FIELD);
    ModFactor(divisor, x2, FIELD);
    ModFactor(divisor, s, FIELD);
    assert x2 * divisor == divisor * x2 && s * divisor == divisor * s;
    assert x2 * (divisor % FIELD) == divisor % FIELD * x2 && s * (divisor % FIELD) == divisor % FIELD * s;
  }

  // --- The encoding of a point ------------------------------------------------------------

  lemma {:induction false} NumberComesBack(n: nat, length: nat)
    requires n < Pow256(length)
    ensures FromLittleEndian(ToLittleEndian(n, length)) == n
    decreases length
  {
    if length > 0 {
      NumberComesBack(n / 256, length - 1);
      var bytes := ToLittleEndian(n, length);
      assert bytes[1..] == ToLittleEndian(n / 256, length - 1);
    }
  }

  lemma EncodingSplits(p: CurvePoint)
    requires p.x < FIELD && p.y < FIELD
    ensures |Encode(p)| == 32
    ensures FromLittleEndian(Encode(p)) % TWO_255 == p.y
    ensures Encode(p)[31] as nat / 128 == p.x % 2
  {
    hide FromLittleEndian, ToLittleEndian, Pow256;
    var n := p.y + p.x % 2 * TWO_255;
    assert n == p.y + if p.x % 2 == 1 then TWO_255 else 0;
    assert n < 256 * TWO_248;
    ThirtyOneBytes();
    OneMoreByte();
    NumberComesBack(n, 32);
    QuotientAndRemainder(n, TWO_255, p.x % 2, p.y);
    SignIsTheTopBit(Encode(p));
  }

  lemma OneMoreByte()
    ensures Pow256(32) == 256 * Pow256(31)
  {
  }

  /** Every point on the curve is what its encoding decodes to. */
  lemma DecompressionIsComplete(p: CurvePoint)
    requires PrimeField() && OnCurve(p)
    ensures Decompress(Encode(p)) == Ok(p)
  {
    hide Pow, CurveD, Fermat, TargetSquare, Root, FromLittleEndian, Encode;
    EncodingSplits(p);
    TargetIsTheSquare(p);
    RootOfSquare(p.x);
    var r := Root(p.x * p.x % FIELD);
    SquareRoots(r, p.x);
    Opposites(r, p.x);
  }

  lemma Opposites(r: nat, x: nat)
    requires r < FIELD && x < FIELD && (r == x || r + x == FIELD || r + x == 0)
    ensures r == 0 ==> x == 0
    ensures r % 2 != x % 2 ==> FIELD - r == x
    ensures r % 2 == x % 2 ==> r == x
  {
  }

  /** A 32-byte string is accepted as a point exactly when it is that point's encoding and the point is on the curve. */
  lemma DecompressionIsExact(encoded: Bytes, p: CurvePoint)
    requires PrimeField()
    ensures Decompress(encoded) == Ok(p) <==> OnCurve(p) && encoded == Encode(p)
  {
    hide Pow, CurveD, Fermat, Decompress, OnCurve, Encode;
    assert Fermat();
    if Decompress(encoded) == Ok(p) { DecompressionIsSound(encoded); }
    if OnCurve(p) && encoded == Encode(p) { DecompressionIsComplete(p); }
  }
}
