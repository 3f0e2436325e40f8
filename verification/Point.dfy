/** Decompression of Edwards25519 points (section 5.1.3 of RFC 8032). */
module Point {
  import opened Common
  import opened Wire

  /** The prime 2^255 - 19. */
  const FIELD: nat := 0x7FFFFFFFFFFFFFFFFFFFFFFFFFFFFFFFFFFFFFFFFFFFFFFFFFFFFFFFFFFFFFED
  const TWO_255: nat := 0x8000000000000000000000000000000000000000000000000000000000000000
  const TWO_248: nat := 0x100000000000000000000000000000000000000000000000000000000000000

  datatype CurvePoint = CurvePoint(x: nat, y: nat)

  datatype Refusal = WrongLength | NonCanonicalY | NotOnCurve | NegativeZero

  /** Modular exponentiation, by its meaning. */
  function Pow(base: int, exponent: nat, modulus: nat): (r: nat)
    requires modulus > 0
    ensures r < modulus
  {
    if exponent == 0 then 1 % modulus else base * Pow(base, exponent - 1, modulus) % modulus
  }

  function CurveD(): (r: nat)
    ensures r < FIELD
  {
    (-121665 * Pow(121666, FIELD - 2, FIELD)) % FIELD
  }

  function SqrtMinusOne(): (r: nat)
    ensures r < FIELD
  {
    Pow(2, (FIELD - 1) / 4, FIELD)
  }

  // --- Bytes -----------------------------------------------------------------

  function FromLittleEndian(bytes: Bytes): (n: nat) {
    if bytes == [] then 0 else bytes[0] as nat + 256 * FromLittleEndian(bytes[1..])
  }

  function ToLittleEndian(n: nat, length: nat): (bytes: Bytes)
    ensures |bytes| == length
  {
    if length == 0 then [] else [(n % 256) as byte] + ToLittleEndian(n / 256, length - 1)
  }

  function Pow256(k: nat): (n: nat)
    ensures n > 0
  {
    if k == 0 then 1 else 256 * Pow256(k - 1)
  }

  // --- The curve -------------------------------------------------------------

  /** Reduced coordinates satisfying -x^2 + y^2 = 1 + d x^2 y^2 in the field. */
  ghost predicate OnCurve(p: CurvePoint) {
    && p.x < FIELD && p.y < FIELD
    && (p.y * p.y - p.x * p.x) % FIELD == (1 + CurveD() * (p.x * p.x) * (p.y * p.y)) % FIELD
  }

  /** The canonical encoding: y in 255 bits, and the parity of x in the last one. */
  function Encode(p: CurvePoint): (bytes: Bytes) {
    ToLittleEndian(p.y + p.x % 2 * TWO_255, 32)
  }

  /** Fermat's little theorem for the field modulus, which is prime. */
  ghost predicate Fermat() {
    forall a: nat | 0 < a < FIELD :: ReturnsToOne(a)
  }

  ghost predicate ReturnsToOne(a: nat) {
    Pow(a, FIELD - 1, FIELD) == 1
  }

  // --- Decompression -----------------------------------------------------------

  /** The square x must have, when the denominator is invertible. */
  function TargetSquare(y: nat): (r: Option<nat>)
    ensures r.Some? ==> r.value < FIELD
  {
    var ySquared := y * y % FIELD;
    var denominator := (CurveD() * ySquared + 1) % FIELD;
    if denominator == 0 then None
    else Some((ySquared - 1) * Pow(denominator, FIELD - 2, FIELD) % FIELD)
  }

  /** A root of a square, by the two candidates of the p = 5 (mod 8) formula. */
  function Root(square: nat): (x: nat)
    ensures x < FIELD
  {
    var candidate := Pow(square, (FIELD + 3) / 8, FIELD);
    if candidate * candidate % FIELD == square then candidate else candidate * SqrtMinusOne() % FIELD
  }

  function Decompress(encoded: Bytes): (r: Result<CurvePoint, Refusal>) {
    if |encoded| != 32 then Err(WrongLength)
    else
      var sign := encoded[31] as nat / 128;
      var y := FromLittleEndian(encoded) % TWO_255;
      if y >= FIELD then Err(NonCanonicalY)
      else
        match TargetSquare(y)
        case None => Err(NotOnCurve)
        case Some(square) =>
          var x := Root(square);
          if x * x % FIELD != square then Err(NotOnCurve)
          else if x == 0 && sign != 0 then Err(NegativeZero)
          else Ok(CurvePoint(if x % 2 != sign then FIELD - x else x, y))
  }

  /** Decompression as it runs: the candidate root is replaced step by step. */
  method DecodePoint(encoded: Bytes) returns (r: Result<CurvePoint, Refusal>)
    ensures r == Decompress(encoded)
  {
    if |encoded| != 32 {
      return Err(WrongLength);
    }
    var sign := encoded[31] as nat / 128;
    var y := FromLittleEndian(encoded) % TWO_255;
    if y >= FIELD {
      return Err(NonCanonicalY);
    }
    var ySquared := y * y % FIELD;
    var denominator := (CurveD() * ySquared + 1) % FIELD;
    if denominator == 0 {
      return Err(NotOnCurve);
    }
    var xSquared := (ySquared - 1) * Pow(denominator, FIELD - 2, FIELD) % FIELD;
    var x := Pow(xSquared, (FIELD + 3) / 8, FIELD);
    if x * x % FIELD != xSquared {
      x := x * SqrtMinusOne() % FIELD;
    }
    if x * x % FIELD != xSquared {
      return Err(NotOnCurve);
    }
    if x == 0 && sign != 0 {
      return Err(NegativeZero);
    }
    if x % 2 != sign {
      x := FIELD - x;
    }
    r := Ok(CurvePoint(x, y));
  }

  // --- Modular arithmetic, for any modulus ----------------------------------------

  lemma ModShift(a: int, k: int, m: nat)
    requires m > 0
    ensures (a + m * k) % m == a % m
  {
    QuotientAndRemainder(a + m * k, m, a / m + k, a % m);
  }

  lemma ModFactor(a: int, b: int, m: nat)
    requires m > 0
    ensures (a % m) * b % m == a * b % m
  {
    var q := a / m;
    assert a * b == a % m * b + m * (q * b) by {
      assert a == m * q + a % m;
      assert (m * q + a % m) * b == m * q * b + a % m * b;
      assert m * q * b == m * (q * b);
    }
    ModShift(a % m * b, q * b, m);
  }

  lemma ModSum(a: int, b: int, m: nat)
    requires m > 0
    ensures (a % m + b) % m == (a + b) % m
  {
    ModShift(a % m + b, a / m, m);
  }

  /** Equal remainders stay equal under addition and multiplication of a common term. */
  lemma ModCongruence(a: int, b: int, c: int, m: nat)
    requires m > 0 && a % m == b % m
    ensures (a + c) % m == (b + c) % m && a * c % m == b * c % m
  {
    ModSum(a, c, m);
    ModSum(b, c, m);
    ModFactor(a, c, m);
    ModFactor(b, c, m);
  }

  /** A quotient times its divisor gives back the dividend, when the inverse is one. */
  lemma Cancel(numerator: int, inverse: int, divisor: int, m: nat)
    requires m > 1 && divisor * inverse % m == 1
    ensures (numerator * inverse % m) * divisor % m == numerator % m
  {
    ModFactor(numerator * inverse, divisor, m);
    assert numerator * inverse * divisor == (divisor * inverse) * numerator;
    ModFactor(divisor * inverse, numerator, m);
  }

  /** The other root: its square is the same, and its parity is the other one. */
  lemma OtherRoot(x: nat, m: nat)
    requires m % 2 == 1 && 0 < x < m
    ensures (m - x) * (m - x) % m == x * x % m
    ensures (m - x) % 2 != x % 2
  {
    SquareOfDifference(x, m);
    ModShift(x * x, m - 2 * x, m);
    assert m == m / 2 * 2 + 1;
  }

  lemma SquareOfDifference(x: int, m: int)
    ensures (m - x) * (m - x) == x * x + m * (m - 2 * x)
  {
  }

  /** From the quotient form of the curve equation to the equation itself. */
  lemma EquationFromQuotient(x2: int, y2: int, d: int, s: int, m: nat)
    requires m > 1
    requires s * (d * y2 + 1) % m == (y2 - 1) % m && x2 % m == s % m
    ensures (y2 - x2) % m == (1 + d * x2 * y2) % m
  {
    ModCongruence(x2, s, d * y2 + 1, m);
    assert x2 * (d * y2 + 1) % m == (y2 - 1) % m;
    ModCongruence(x2 * (d * y2 + 1), y2 - 1, 1 - x2, m);
    assert x2 * (d * y2 + 1) == d * x2 * y2 + x2;
  }

  // --- Little-endian round trip -------------------------------------------------------

  lemma {:induction false} BytesComeBack(bytes: Bytes)
    ensures ToLittleEndian(FromLittleEndian(bytes), |bytes|) == bytes
    ensures FromLittleEndian(bytes) < Pow256(|bytes|)
  {
    if bytes != [] {
      BytesComeBack(bytes[1..]);
      QuotientAndRemainder(FromLittleEndian(bytes), 256, FromLittleEndian(bytes[1..]), bytes[0] as int);
    }
  }

  lemma {:induction false} LastByteIsOnTop(bytes: Bytes)
    requires bytes != []
    ensures var k := |bytes| - 1;
            FromLittleEndian(bytes) == FromLittleEndian(bytes[..k]) + Pow256(k) * bytes[k] as nat
  {
    var k := |bytes| - 1;
    if k == 0 {
      assert bytes[1..] == [] && bytes[..0] == [];
    } else {
      LastByteIsOnTop(bytes[1..]);
      assert bytes[1..][..k - 1] == bytes[..k][1..];
      var p := Pow256(k - 1);
      assert 256 * (p * bytes[k] as nat) == (256 * p) * bytes[k] as nat;
    }
  }

  lemma SignIsTheTopBit(encoded: Bytes)
    requires |encoded| == 32
    ensures var n := FromLittleEndian(encoded);
            n == n % TWO_255 + encoded[31] as nat / 128 * TWO_255
  {
    hide FromLittleEndian, Pow256;
    LastByteIsOnTop(encoded);
    BytesComeBack(encoded[..31]);
    ThirtyOneBytes();
    var low, top := FromLittleEndian(encoded[..31]), encoded[31] as nat;
    TopBit(low, top);
  }

  lemma FourMoreBytes(k: nat)
    ensures Pow256(k + 4) == 0x1_0000_0000 * Pow256(k)
  {
    assert Pow256(k + 2) == 256 * Pow256(k + 1);
    assert Pow256(k + 4) == 256 * Pow256(k + 3);
  }

  lemma ThirtyOneBytes()
    ensures Pow256(31) == TWO_248
  {
    assert Pow256(3) == 0x100_0000;
    FourMoreBytes(3);
    FourMoreBytes(7);
    FourMoreBytes(11);
    FourMoreBytes(15);
    FourMoreBytes(19);
    FourMoreBytes(23);
    FourMoreBytes(27);
  }

  lemma TopBit(low: nat, top: nat)
    requires low < TWO_248 && top < 256
    ensures var n := low + TWO_248 * top;
            n == n % TWO_255 + top / 128 * TWO_255
  {
    var n := low + TWO_248 * top;
    assert n == TWO_255 * (top / 128) + (low + TWO_248 * (top % 128));
    QuotientAndRemainder(n, TWO_255, top / 128, low + TWO_248 * (top % 128));
  }

  // --- The results ---------------------------------------------------------------------

  /** The square decompression aims at is the one the curve equation asks for. */
  lemma TargetSolvesTheEquation(y: nat)
    requires Fermat() && TargetSquare(y).Some?
    ensures TargetSquare(y).value * (CurveD() * (y * y) + 1) % FIELD == (y * y - 1) % FIELD
  {
    hide Pow, CurveD;
    var ySquared := y * y % FIELD;
    var denominator := (CurveD() * ySquared + 1) % FIELD;
    var inverse := Pow(denominator, FIELD - 2, FIELD);
    InverseByFermat(denominator);
    Cancel(ySquared - 1, inverse, denominator, FIELD);
    var s := TargetSquare(y).value;
    assert s * denominator % FIELD == (ySquared - 1) % FIELD;
    Unreduce(s, y * y, CurveD(), FIELD);
  }

  lemma InverseByFermat(denominator: nat)
    requires Fermat() && 0 < denominator < FIELD
    ensures denominator * Pow(denominator, FIELD - 2, FIELD) % FIELD == 1
  {
    assert ReturnsToOne(denominator);
  }

  /** Reducing y^2 first changes nothing. */
  lemma ReducedDenominator(y2: int, d: int, m: nat)
    requires m > 1
    ensures (d * (y2 % m) + 1) % m == (d * y2 + 1) % m
  {
    ModFactor(y2, d, m);
    assert d * (y2 % m) == y2 % m * d && d * y2 == y2 * d;
    ModCongruence(d * (y2 % m), d * y2, 1, m);
  }

  lemma Unreduce(s: int, y2: int, d: int, m: nat)
    requires m > 1
    requires s * ((d * (y2 % m) + 1) % m) % m == (y2 % m - 1) % m
    ensures s * (d * y2 + 1) % m == (y2 - 1) % m
  {
    ModSum(y2, -1, m);
    ReducedDenominator(y2, d, m);
    ModFactor(d * y2 + 1, s, m);
    assert s * ((d * y2 + 1) % m) == (d * y2 + 1) % m * s;
    assert s * (d * y2 + 1) == (d * y2 + 1) * s;
  }

  /** The accepted root, after the sign was settled: reduced, squaring to the target, of the parity asked for. */
  lemma RootIsSettled(encoded: Bytes)
    requires Decompress(encoded).Ok?
    ensures var p, y := Decompress(encoded).value, FromLittleEndian(encoded) % TWO_255;
            && |encoded| == 32 && p.y == y < FIELD && p.x < FIELD && TargetSquare(y).Some?
            && p.x * p.x % FIELD == TargetSquare(y).value
            && p.x % 2 == encoded[31] as nat / 128
  {
    hide TargetSquare, Root, FromLittleEndian;
    var y := FromLittleEndian(encoded) % TWO_255;
    var x := Root(TargetSquare(y).value);
    if x != 0 { OtherRoot(x, FIELD); }
  }

  lemma AcceptedPointIsOnTheCurve(encoded: Bytes)
    requires Fermat() && Decompress(encoded).Ok?
    ensures OnCurve(Decompress(encoded).value)
  {
    hide Pow, CurveD, TargetSquare, Decompress, Fermat;
    RootIsSettled(encoded);
    var p := Decompress(encoded).value;
    var square := TargetSquare(p.y).value;
    TargetSolvesTheEquation(p.y);
    Reduced(square, FIELD);
    EquationFromQuotient(p.x * p.x, p.y * p.y, CurveD(), square, FIELD);
  }

  lemma Reduced(a: nat, m: nat)
    requires a < m
    ensures a % m == a
  {
  }

  lemma AcceptedPointEncodesBack(encoded: Bytes)
    requires Decompress(encoded).Ok?
    ensures Encode(Decompress(encoded).value) == encoded
  {
    hide Decompress, TargetSquare, FromLittleEndian, ToLittleEndian;
    RootIsSettled(encoded);
    SignIsTheTopBit(encoded);
    BytesComeBack(encoded);
  }

  /** Every accepted string decodes to a reduced point on the curve that encodes back to it. */
  lemma DecompressionIsSound(encoded: Bytes)
    requires Fermat() && Decompress(encoded).Ok?
    ensures OnCurve(Decompress(encoded).value)
    ensures Encode(Decompress(encoded).value) == encoded
  {
    AcceptedPointIsOnTheCurve(encoded);
    AcceptedPointEncodesBack(encoded);
  }

  /** No two strings decode to one point. */
  lemma DecompressionIsInjective(a: Bytes, b: Bytes)
    requires Fermat() && Decompress(a).Ok? && Decompress(a) == Decompress(b)
    ensures a == b
  {
    DecompressionIsSound(a);
    DecompressionIsSound(b);
  }
}
