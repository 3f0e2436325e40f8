/** SSH wire framing (section 5 of RFC 4251): big-endian integers and length-prefixed strings. */
module Wire {
  import opened Common

  newtype byte = x: int | 0 <= x < 256
  type Bytes = seq<byte>

  const UINT32_LIMIT := 0x1_0000_0000
  const MAX_STRING := 0x1_0000

  datatype FormatError =
    | OutOfRange
    | Truncated
    | StringTooLong
    | TrailingBytes
    | BlobTooLong
    | BadPreamble
    | BadVersion
    | BadKey
    | EmptyNamespace
    | NotUtf8
    | NotAscii
    | HashNotAllowed
    | NotArmored
    | NotBase64

  /** What a read yields: the value, and the bytes that have not been read yet. */
  datatype Reading<+T> = Reading(value: T, rest: Bytes)

  // --- Encoding --------------------------------------------------------------

  function PutUint32(value: int): (r: Result<Bytes, FormatError>) {
    if !(0 <= value < UINT32_LIMIT) then Err(OutOfRange)
    else Ok([(value / 0x100_0000) as byte, (value / 0x1_0000 % 256) as byte,
             (value / 0x100 % 256) as byte, (value % 256) as byte])
  }

  function PutString(value: Bytes): (r: Result<Bytes, FormatError>) {
    var length :- PutUint32(|value|);
    Ok(length + value)
  }

  // --- Decoding, as functions of the unread bytes ------------------------------

  function GetFixed(rest: Bytes, count: int): (r: Result<Reading<Bytes>, FormatError>) {
    if count < 0 || |rest| < count then Err(Truncated) else Ok(Reading(rest[..count], rest[count..]))
  }

  function BigEndian(four: Bytes): (r: int)
    requires |four| == 4
  {
    (four[0] as int) * 0x100_0000 + (four[1] as int) * 0x1_0000 + (four[2] as int) * 0x100 + four[3] as int
  }

  function GetUint32(rest: Bytes): (r: Result<Reading<int>, FormatError>)
    ensures r.Ok? ==> 0 <= r.value.value < UINT32_LIMIT
  {
    var four :- GetFixed(rest, 4);
    Ok(Reading(BigEndian(four.value), four.rest))
  }

  function GetString(rest: Bytes): (r: Result<Reading<Bytes>, FormatError>)
    ensures r.Ok? ==> |r.value.rest| < |rest|
  {
    var length :- GetUint32(rest);
    if length.value > MAX_STRING then Err(StringTooLong) else GetFixed(length.rest, length.value)
  }

  // --- The reader ------------------------------------------------------------

  /** A reader that goes through its bytes once: a read takes what it asks for or fails. */
  class WireReader {
    const data: Bytes
    var offset: nat

    ghost predicate Valid()
      reads this
    {
      offset <= |data|
    }

    /** The bytes not read yet. */
    function Rest(): (r: Bytes)
      reads this
      requires Valid()
    {
      data[offset..]
    }

    constructor (blob: Bytes)
      ensures Valid() && data == blob && Rest() == blob
    {
      data, offset := blob, 0;
    }

    method Fixed(count: int) returns (r: Result<Bytes, FormatError>)
      requires Valid()
      modifies this
      ensures Valid()
      ensures match GetFixed(old(Rest()), count)
              case Ok(read) => r == Ok(read.value) && Rest() == read.rest
              case Err(e) => r == Err(e) && offset == old(offset)
    {
      if count < 0 || |data| - offset < count {
        return Err(Truncated);
      }
      r := Ok(data[offset..offset + count]);
      assert data[offset..][count..] == data[offset + count..];
      assert data[offset..][..count] == data[offset..offset + count];
      offset := offset + count;
    }

    method Uint32() returns (r: Result<int, FormatError>)
      requires Valid()
      modifies this
      ensures Valid()
      ensures match GetUint32(old(Rest()))
              case Ok(read) => r == Ok(read.value) && Rest() == read.rest
              case Err(e) => r == Err(e) && offset == old(offset)
    {
      var four :- Fixed(4);
      r := Ok(BigEndian(four));
    }

    method String() returns (r: Result<Bytes, FormatError>)
      requires Valid()
      modifies this
      ensures Valid()
      ensures match GetString(old(Rest()))
              case Ok(read) => r == Ok(read.value) && Rest() == read.rest
              case Err(e) => r == Err(e)
    {
      var length :- Uint32();
      if length > MAX_STRING {
        return Err(StringTooLong);
      }
      r := Fixed(length);
    }

    /** Nothing may be left over. */
    method Finish() returns (r: Result<(), FormatError>)
      requires Valid()
      ensures r == if Rest() == [] then Ok(()) else Err(TrailingBytes)
    {
      r := if |data| - offset != 0 then Err(TrailingBytes) else Ok(());
    }
  }

  // --- The two directions undo each other --------------------------------------

  lemma Uint32RoundTrip(value: int)
    requires 0 <= value < UINT32_LIMIT
    ensures BigEndian(PutUint32(value).value) == value
  {
    assert value == value / 0x100 * 0x100 + value % 0x100;
    assert value / 0x100 == value / 0x1_0000 * 0x100 + value / 0x100 % 0x100;
    assert value / 0x1_0000 == value / 0x100_0000 * 0x100 + value / 0x1_0000 % 0x100;
  }

  lemma QuotientAndRemainder(value: int, divisor: int, quotient: int, remainder: int)
    requires 0 < divisor && 0 <= remainder < divisor && value == divisor * quotient + remainder
    ensures value / divisor == quotient && value % divisor == remainder
  {
    var gap := value / divisor - quotient;
    assert divisor * gap == remainder - value % divisor;
    assert gap >= 1 ==> divisor * gap >= divisor;
    assert gap <= -1 ==> divisor * gap <= -divisor;
  }

  lemma BigEndianIsInjective(four: Bytes)
    requires |four| == 4
    ensures PutUint32(BigEndian(four)) == Ok(four)
  {
    var a, b, c, d := four[0] as int, four[1] as int, four[2] as int, four[3] as int;
    var v := BigEndian(four);
    QuotientAndRemainder(v, 0x100_0000, a, b * 0x1_0000 + c * 0x100 + d);
    QuotientAndRemainder(v, 0x1_0000, a * 0x100 + b, c * 0x100 + d);
    QuotientAndRemainder(a * 0x100 + b, 0x100, a, b);
    QuotientAndRemainder(v, 0x100, a * 0x1_0000 + b * 0x100 + c, d);
    QuotientAndRemainder(a * 0x1_0000 + b * 0x100 + c, 0x100, a * 0x100 + b, c);
    assert PutUint32(v).value == four;
  }

  /** Reading back a framed string yields it, and leaves exactly what followed it. */
  lemma StringRoundTrip(value: Bytes, rest: Bytes)
    requires |value| <= MAX_STRING
    ensures PutString(value).Ok?
    ensures GetString(PutString(value).value + rest) == Ok(Reading(value, rest))
  {
    var length := PutUint32(|value|).value;
    var blob := PutString(value).value + rest;
    assert blob == length + (value + rest);
    assert blob[..4] == length && blob[4..] == value + rest;
    Uint32RoundTrip(|value|);
  }

  /** Whatever was read as a string is the framing of that string, followed by the rest. */
  lemma StringReadIsFramed(blob: Bytes)
    requires GetString(blob).Ok?
    ensures var read := GetString(blob).value;
            |read.value| <= MAX_STRING && PutString(read.value).Ok? && blob == PutString(read.value).value + read.rest
  {
    BigEndianIsInjective(blob[..4]);
  }

  /** Two framed strings followed by anything agree only when both parts agree. */
  lemma FramedStringsAreUnambiguous(a: Bytes, restA: Bytes, b: Bytes, restB: Bytes)
    requires PutString(a).Ok? && PutString(b).Ok?
    requires PutString(a).value + restA == PutString(b).value + restB
    ensures a == b && restA == restB
  {
    var left, right := PutString(a).value + restA, PutString(b).value + restB;
    var la, lb := PutUint32(|a|).value, PutUint32(|b|).value;
    assert left == la + (a + restA) && right == lb + (b + restB);
    assert la == left[..4] && lb == right[..4];
    Uint32RoundTrip(|a|);
    Uint32RoundTrip(|b|);
    assert a + restA == left[4..] && b + restB == right[4..];
    assert a == (a + restA)[..|a|] && b == (b + restB)[..|b|];
    assert restA == (a + restA)[|a|..] && restB == (b + restB)[|b|..];
  }

  // --- Strings in a row ----------------------------------------------------------

  function PutStrings(values: seq<Bytes>): (r: Result<Bytes, FormatError>) {
    if values == [] then Ok([]) else
    var first :- PutString(values[0]);
    var others :- PutStrings(values[1..]);
    Ok(first + others)
  }

  function GetStrings(rest: Bytes, count: nat): (r: Result<Reading<seq<Bytes>>, FormatError>)
    ensures r.Ok? ==> |r.value.value| == count
  {
    if count == 0 then Ok(Reading([], rest)) else
    var first :- GetString(rest);
    var others :- GetStrings(first.rest, count - 1);
    Ok(Reading([first.value] + others.value, others.rest))
  }

  lemma RowStartsWithItsFirst(values: seq<Bytes>, rest: Bytes)
    requires values != [] && PutString(values[0]).Ok? && PutStrings(values[1..]).Ok?
    ensures PutStrings(values).Ok?
    ensures PutStrings(values).value + rest == PutString(values[0]).value + (PutStrings(values[1..]).value + rest)
  {
  }

  lemma RowReadsItsFirst(row: Bytes, first: Reading<Bytes>, others: Reading<seq<Bytes>>, count: nat)
    requires GetString(row) == Ok(first) && GetStrings(first.rest, count) == Ok(others)
    ensures GetStrings(row, count + 1) == Ok(Reading([first.value] + others.value, others.rest))
  {
  }

  lemma {:induction false} StringsRoundTrip(values: seq<Bytes>, rest: Bytes)
    requires forall i | 0 <= i < |values| :: |values[i]| <= MAX_STRING
    ensures PutStrings(values).Ok?
    ensures GetStrings(PutStrings(values).value + rest, |values|) == Ok(Reading(values, rest))
  {
    if values == [] {
      assert PutStrings(values).value + rest == rest;
    } else {
      StringsRoundTrip(values[1..], rest);
      var others := PutStrings(values[1..]).value + rest;
      StringRoundTrip(values[0], others);
      RowStartsWithItsFirst(values, rest);
      RowReadsItsFirst(PutStrings(values).value + rest, Reading(values[0], others), Reading(values[1..], rest),
                       |values| - 1);
      assert [values[0]] + values[1..] == values;
    }
  }

  lemma {:induction false} StringsReadAreFramed(blob: Bytes, count: nat)
    requires GetStrings(blob, count).Ok?
    ensures var read := GetStrings(blob, count).value;
            && (forall i | 0 <= i < count :: |read.value[i]| <= MAX_STRING)
            && PutStrings(read.value).Ok? && blob == PutStrings(read.value).value + read.rest
    decreases count
  {
    hide PutString, GetString;
    if count > 0 {
      StringReadIsFramed(blob);
      var first := GetString(blob).value;
      StringsReadAreFramed(first.rest, count - 1);
      var others := GetStrings(first.rest, count - 1).value;
      RowReadsItsFirst(blob, first, others, count - 1);
      var values := [first.value] + others.value;
      assert values[0] == first.value && values[1..] == others.value;
      RowStartsWithItsFirst(values, others.rest);
    }
  }

  /** Each string of a row is no longer than the whole row. */
  lemma {:induction false} StringsFitTheirRow(values: seq<Bytes>)
    requires PutStrings(values).Ok?
    ensures forall i | 0 <= i < |values| :: |values[i]| <= |PutStrings(values).value|
  {
    if values != [] {
      StringsFitTheirRow(values[1..]);
      forall i | 0 <= i < |values|
        ensures |values[i]| <= |PutStrings(values).value|
      {
        if i > 0 { assert values[i] == values[1..][i - 1]; }
      }
    }
  }
}
