/** The multiple-precision integers of section 5 of RFC 4251, and the floor an RSA key has to clear. */
module Mpints {
  import opened Common
  import opened Wire
  import opened Keys

  datatype MpintError = Empty | NotPositive | RedundantZero

  /** A number from its bytes, most significant first. */
  function Number(raw: Bytes): (n: nat) {
    if raw == [] then 0 else Number(raw[..|raw| - 1]) * 256 + raw[|raw| - 1] as nat
  }

  /** Shortest encodings of positive numbers only. */
  function PositiveMpint(raw: Bytes): (r: Result<nat, MpintError>) {
    if raw == [] then Err(Empty)
    else if raw[0] >= 128 then Err(NotPositive)
    else if |raw| > 1 && raw[0] == 0 && raw[1] < 128 then Err(RedundantZero)
    else if Number(raw) == 0 then Err(NotPositive)
    else Ok(Number(raw))
  }

  // --- The one encoding of a positive number ------------------------------------------------------

  /** As few bytes as hold the number. */
  function Shortest(n: nat): (raw: Bytes) {
    if n == 0 then [] else Shortest(n / 256) + [(n % 256) as byte]
  }

  /** The shortest bytes, kept positive by a zero where the top bit is set. */
  function Mpint(n: nat): (raw: Bytes)
    requires n > 0
  {
    if Shortest(n)[0] >= 128 then [0] + Shortest(n) else Shortest(n)
  }

  lemma {:induction false} ShortestIs(n: nat)
    requires n > 0
    ensures |Shortest(n)| > 0 && Shortest(n)[0] != 0 && Number(Shortest(n)) == n
  {
    var earlier := Shortest(n / 256);
    assert Shortest(n)[..|Shortest(n)| - 1] == earlier;
    if n >= 256 {
      ShortestIs(n / 256);
    }
  }

  lemma {:induction false} NumberComesBack(raw: Bytes)
    requires raw != [] && raw[0] != 0
    ensures Number(raw) > 0 && Shortest(Number(raw)) == raw
  {
    var earlier, last := raw[..|raw| - 1], raw[|raw| - 1];
    assert raw == earlier + [last];
    if earlier == [] {
      assert Number(earlier) == 0;
      assert Shortest(0) == [];
    } else {
      NumberComesBack(earlier);
    }
    QuotientAndRemainder(Number(raw), 256, Number(earlier), last as int);
  }

  lemma {:induction false} LeadingZero(raw: Bytes)
    ensures Number([0] + raw) == Number(raw)
  {
    var padded := [0] + raw;
    if raw != [] {
      assert padded[..|padded| - 1] == [0] + raw[..|raw| - 1];
      LeadingZero(raw[..|raw| - 1]);
    }
  }

  lemma AcceptedIsTheEncoding(raw: Bytes)
    requires PositiveMpint(raw).Ok?
    ensures var n := PositiveMpint(raw).value;
            n > 0 && raw == Mpint(n)
  {
    hide Number, Shortest;
    if raw[0] == 0 {
      var rest := raw[1..];
      assert raw == [0] + rest;
      LeadingZero(rest);
      if rest == [] {
        NumberOfNothing();
        assert false;
      }
      NumberComesBack(rest);
    } else {
      NumberComesBack(raw);
    }
  }

  lemma NumberOfNothing()
    ensures Number([]) == 0
  {
  }

  lemma TheEncodingIsAccepted(n: nat)
    requires n > 0
    ensures PositiveMpint(Mpint(n)) == Ok(n)
  {
    hide Number, Shortest;
    ShortestIs(n);
    LeadingZero(Shortest(n));
  }

  /** A byte string is accepted as a number exactly when it is the one encoding of that number. */
  lemma MpintIsCanonical(raw: Bytes, n: nat)
    ensures PositiveMpint(raw) == Ok(n) <==> n > 0 && raw == Mpint(n)
  {
    hide PositiveMpint, Mpint;
    if PositiveMpint(raw).Ok? {
      AcceptedIsTheEncoding(raw);
    }
    if n > 0 {
      TheEncodingIsAccepted(n);
    }
  }

  // --- The security floor -----------------------------------------------------------------------------

  function BitLength(n: nat): (r: nat) {
    if n == 0 then 0 else 1 + BitLength(n / 2)
  }

  function PowerOfTwo(k: nat): (r: nat)
    ensures r > 0
  {
    if k == 0 then 1 else 2 * PowerOfTwo(k - 1)
  }

  /** A number has more than k bits exactly when it is at least the k-th power of two. */
  lemma {:induction false} BitsMeasure(n: nat, k: nat)
    ensures BitLength(n) > k <==> n >= PowerOfTwo(k)
    decreases k
  {
    if k > 0 && n > 0 {
      BitsMeasure(n / 2, k - 1);
    }
  }

  const MIN_RSA_BITS: nat := 3072

  const RSA_KEY_TYPE := "ssh-rsa"
  const DSA_KEY_TYPE := "ssh-dss"

  datatype FloorVerdict = Clears | Weak | Malformed

  /** The two numbers of an RSA blob, when both are canonical and nothing follows them. */
  function RsaNumbers(blob: Bytes): (r: Option<(nat, nat)>) {
    match GetStrings(blob, 3)
    case Err(_) => None
    case Ok(read) =>
      var exponent, modulus := PositiveMpint(read.value[1]), PositiveMpint(read.value[2]);
      if read.rest == [] && exponent.Ok? && modulus.Ok? then Some((exponent.value, modulus.value)) else None
  }

  method ReadStrings(reader: WireReader, count: nat) returns (r: Result<seq<Bytes>, FormatError>)
    requires reader.Valid()
    modifies reader
    ensures reader.Valid()
    ensures GetStrings(old(reader.Rest()), count).Ok? <==> r.Ok?
    ensures r.Ok? ==> GetStrings(old(reader.Rest()), count) == Ok(Reading(r.value, reader.Rest()))
  {
    hide GetString;
    if count == 0 {
      return Ok([]);
    }
    var first :- reader.String();
    var others :- ReadStrings(reader, count - 1);
    r := Ok([first] + others);
  }

  method ReadRsaNumbers(blob: Bytes) returns (r: Option<(nat, nat)>)
    ensures r == RsaNumbers(blob)
  {
    hide PositiveMpint, GetStrings;
    var reader := new WireReader(blob);
    var fields := ReadStrings(reader, 3);
    if fields.Err? {
      return None;
    }
    var exponent := PositiveMpint(fields.value[1]);
    var modulus := PositiveMpint(fields.value[2]);
    var done := reader.Finish();
    r := if done.Err? || exponent.Err? || modulus.Err? then None else Some((exponent.value, modulus.value));
  }

  /** DSA never clears the floor; RSA does from 3072 bits on; other types are not its business. */
  method RequireSecurityFloor(key: SshPublicKey) returns (verdict: FloorVerdict)
    ensures key.keyType == DSA_KEY_TYPE ==> verdict == Weak
    ensures key.keyType != DSA_KEY_TYPE && key.keyType != RSA_KEY_TYPE ==> verdict == Clears
    ensures key.keyType == RSA_KEY_TYPE && key.keyType != DSA_KEY_TYPE ==> verdict == FloorOf(RsaNumbers(key.blob))
  {
    hide PowerOfTwo, BitLength, RsaNumbers, Ascii;
    if key.keyType == DSA_KEY_TYPE {
      return Weak;
    }
    if key.keyType != RSA_KEY_TYPE {
      return Clears;
    }
    var numbers := ReadRsaNumbers(key.blob);
    if numbers.None? {
      return Malformed;
    }
    var (exponent, modulus) := numbers.value;
    if exponent < 3 || exponent % 2 == 0 {
      return Malformed;
    }
    BitsMeasure(modulus, MIN_RSA_BITS - 1);
    verdict := if BitLength(modulus) < MIN_RSA_BITS then Weak else Clears;
  }

  /** An odd exponent of at least 3, and a modulus no smaller than the least number of 3072 bits. */
  function FloorOf(numbers: Option<(nat, nat)>): (r: FloorVerdict) {
    if numbers.None? || numbers.value.0 < 3 || numbers.value.0 % 2 == 0 then Malformed
    else if numbers.value.1 >= PowerOfTwo(MIN_RSA_BITS - 1) then Clears else Weak
  }

  /** The blob of an RSA key: a name, the exponent and the modulus, each framed, the numbers in their one encoding. */
  ghost predicate IsRsaBlob(blob: Bytes, exponent: nat, modulus: nat) {
    && exponent > 0 && modulus > 0
    && exists name: Bytes :: IsFramedAs(blob, [name, Mpint(exponent), Mpint(modulus)])
  }

  /** The two numbers are read exactly off such a blob. */
  lemma RsaNumbersExactly(blob: Bytes, exponent: nat, modulus: nat)
    ensures RsaNumbers(blob) == Some((exponent, modulus)) <==> IsRsaBlob(blob, exponent, modulus)
  {
    hide PutStrings, GetStrings, PositiveMpint, Mpint;
    if RsaNumbers(blob) == Some((exponent, modulus)) {
      StringsReadAreFramed(blob, 3);
      var read := GetStrings(blob, 3).value;
      MpintIsCanonical(read.value[1], exponent);
      MpintIsCanonical(read.value[2], modulus);
      assert PutStrings(read.value).value + [] == PutStrings(read.value).value;
      assert IsFramedAs(blob, [read.value[0], Mpint(exponent), Mpint(modulus)]) by {
        assert read.value == [read.value[0], Mpint(exponent), Mpint(modulus)];
      }
    }
    if IsRsaBlob(blob, exponent, modulus) {
      var name: Bytes :| IsFramedAs(blob, [name, Mpint(exponent), Mpint(modulus)]);
      var fields := [name, Mpint(exponent), Mpint(modulus)];
      StringsRoundTrip(fields, []);
      assert PutStrings(fields).value + [] == blob;
      MpintIsCanonical(fields[1], exponent);
      MpintIsCanonical(fields[2], modulus);
    }
  }

  /** Which RSA blobs clear the floor, which are too weak, and that all others are malformed. */
  lemma FloorExactly(blob: Bytes, bits: nat)
    requires bits == 3072
    ensures FloorOf(RsaNumbers(blob)) == Clears <==>
            exists exponent: nat, modulus: nat ::
              IsRsaBlob(blob, exponent, modulus) && exponent >= 3 && exponent % 2 == 1
                && modulus >= PowerOfTwo(bits - 1)
    ensures FloorOf(RsaNumbers(blob)) == Weak <==>
            exists exponent: nat, modulus: nat ::
              IsRsaBlob(blob, exponent, modulus) && exponent >= 3 && exponent % 2 == 1 && modulus < PowerOfTwo(bits - 1)
  {
    hide RsaNumbers, IsRsaBlob, PowerOfTwo;
    forall exponent: nat, modulus: nat
      ensures RsaNumbers(blob) == Some((exponent, modulus)) <==> IsRsaBlob(blob, exponent, modulus)
    {
      RsaNumbersExactly(blob, exponent, modulus);
    }
    var numbers := RsaNumbers(blob);
    if numbers.Some? {
      assert IsRsaBlob(blob, numbers.value.0, numbers.value.1);
    }
  }
}
