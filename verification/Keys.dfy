/** SSH public keys and the RFC 4253 framing of a raw signature. */
module Keys {
  import opened Common
  import opened Wire

  const MAX_KEY_BLOB := 0x4000
  const ED25519_KEY_BYTES := 32

  /** Text as ASCII bytes, with a question mark for each character that has none. */
  function Ascii(s: string): (r: Bytes)
    ensures |r| == |s|
  {
    seq(|s|, i requires 0 <= i < |s| => if s[i] < 128 as char then s[i] as int as byte else 63)
  }

  const ED25519_KEY_TYPE := "ssh-ed25519"

  predicate IsAscii(text: Bytes) {
    forall i | 0 <= i < |text| :: text[i] < 128
  }

  predicate IsAsciiText(s: string) {
    forall i | 0 <= i < |s| :: s[i] < 128 as char
  }

  /** ASCII bytes as text. */
  function Text(text: Bytes): (r: string)
    requires IsAscii(text)
    ensures |r| == |text|
  {
    seq(|text|, i requires 0 <= i < |text| => text[i] as int as char)
  }

  /** Decoding and encoding undo each other, and what encodes to itself again is exactly the ASCII text. */
  lemma AsciiRoundTrip(text: Bytes, s: string)
    ensures IsAscii(Ascii(s))
    ensures IsAscii(text) ==> Ascii(Text(text)) == text && IsAsciiText(Text(text))
    ensures Text(Ascii(s)) == s <==> IsAsciiText(s)
  {
    if Text(Ascii(s)) == s {
      forall i | 0 <= i < |s|
        ensures s[i] < 128 as char
      {
        assert Text(Ascii(s))[i] == s[i];
      }
    }
  }

  /** The type name and the wire blob. */
  datatype SshPublicKey = SshPublicKey(keyType: string, blob: Bytes)

  /** Whether the bytes are a sequence of whole framed strings. */
  predicate FramesCleanly(rest: Bytes)
    decreases |rest|
  {
    rest == [] || match GetString(rest)
                  case Ok(read) => FramesCleanly(read.rest)
                  case Err(_) => false
  }

  /** What construction of a key accepts. */
  predicate IsWellFormed(key: SshPublicKey) {
    && key.keyType != []
    && |key.blob| <= MAX_KEY_BLOB
    && (match GetString(key.blob)
        case Err(_) => false
        case Ok(declared) =>
          && declared.value == Ascii(key.keyType)
          && FramesCleanly(declared.rest)
          && (key.keyType == ED25519_KEY_TYPE ==>
                match GetString(declared.rest)
                case Ok(raw) => |raw.value| == ED25519_KEY_BYTES
                case Err(_) => false))
  }

  /** Construction of a key: the declared type, the whole framing, and the length of an Ed25519 point. */
  method Construct(keyType: string, blob: Bytes) returns (r: Result<SshPublicKey, FormatError>)
    ensures r.Ok? <==> IsWellFormed(SshPublicKey(keyType, blob))
    ensures r.Ok? ==> r.value == SshPublicKey(keyType, blob)
  {
    if keyType == [] || |blob| > MAX_KEY_BLOB {
      return Err(BadKey);
    }
    var reader := new WireReader(blob);
    var declared :- reader.String();
    if declared != Ascii(keyType) {
      return Err(BadKey);
    }
    ghost var body := reader.Rest();
    while |reader.data| - reader.offset != 0
      invariant reader.Valid()
      invariant FramesCleanly(body) <==> FramesCleanly(reader.Rest())
      decreases |reader.data| - reader.offset
    {
      var _ :- reader.String();
    }
    if keyType == ED25519_KEY_TYPE {
      var keyData := new WireReader(blob);
      var _ := keyData.String(); // the declared type, which was read above
      var raw :- keyData.String();
      if |raw| != ED25519_KEY_BYTES {
        return Err(BadKey);
      }
    }
    r := Ok(SshPublicKey(keyType, blob));
  }

  /** The key an embedded blob names, if any: the type is read off the blob itself. */
  function KeyFromBlob(blob: Bytes): (r: Result<SshPublicKey, FormatError>) {
    var declared :- GetString(blob);
    if !IsAscii(declared.value) then Err(NotAscii)
    else
      var key := SshPublicKey(Text(declared.value), blob);
      if IsWellFormed(key) then Ok(key) else Err(BadKey)
  }

  method FromBlob(blob: Bytes) returns (r: Result<SshPublicKey, FormatError>)
    ensures r.Ok? <==> KeyFromBlob(blob).Ok?
    ensures r.Ok? ==> r == KeyFromBlob(blob)
  {
    var reader := new WireReader(blob);
    var declared :- reader.String();
    if !IsAscii(declared) {
      return Err(NotAscii);
    }
    r := Construct(Text(declared), blob);
  }

  /** A key that could be constructed is the one its blob decodes to: blob and type cannot disagree. */
  lemma KeyRoundTrip(key: SshPublicKey)
    ensures KeyFromBlob(key.blob) == Ok(key) <==> IsWellFormed(key) && IsAsciiText(key.keyType)
  {
    var declared := GetString(key.blob);
    AsciiRoundTrip(if declared.Ok? then declared.value.value else [], key.keyType);
  }

  // --- What a well-formed key is made of ------------------------------------------

  ghost predicate IsFramedAs(blob: Bytes, fields: seq<Bytes>) {
    (forall i | 0 <= i < |fields| :: |fields[i]| <= MAX_STRING) && PutStrings(fields) == Ok(blob)
  }

  lemma OneMoreField(field: Bytes, rest: Bytes, fields: seq<Bytes>)
    requires |field| <= MAX_STRING && IsFramedAs(rest, fields)
    ensures PutString(field).Ok? && IsFramedAs(PutString(field).value + rest, [field] + fields)
  {
    assert ([field] + fields)[1..] == fields;
  }

  /** Bytes frame cleanly exactly when they are some strings, framed one after another. */
  lemma {:induction false} FramesExactly(rest: Bytes)
    ensures FramesCleanly(rest) <==> exists fields :: IsFramedAs(rest, fields)
    decreases |rest|
  {
    if fields :| IsFramedAs(rest, fields) {
      FramedIsClean(rest, fields);
    }
    if rest == [] {
      assert IsFramedAs(rest, []);
    } else if FramesCleanly(rest) {
      StringReadIsFramed(rest);
      var first := GetString(rest).value;
      FramesExactly(first.rest);
      var others :| IsFramedAs(first.rest, others);
      OneMoreField(first.value, first.rest, others);
    }
  }

  lemma {:induction false} FramedIsClean(rest: Bytes, fields: seq<Bytes>)
    requires IsFramedAs(rest, fields)
    ensures FramesCleanly(rest)
    decreases |fields|
  {
    if fields != [] {
      var others := PutStrings(fields[1..]).value;
      StringRoundTrip(fields[0], others);
      FramedIsClean(others, fields[1..]);
    }
  }

  /**
   A key is well formed exactly when its blob is some framed strings, the first of them its type, and for an Ed25519
   key the second one 32 bytes long.
   */
  lemma WellFormedExactly(key: SshPublicKey)
    ensures IsWellFormed(key) <==>
            && key.keyType != [] && |key.blob| <= MAX_KEY_BLOB
            && exists fields ::
                 && IsFramedAs(key.blob, fields) && fields != [] && fields[0] == Ascii(key.keyType)
                 && (key.keyType == ED25519_KEY_TYPE ==> |fields| >= 2 && |fields[1]| == 32)
  {
    hide FramesCleanly, Ascii;
    if IsWellFormed(key) {
      StringReadIsFramed(key.blob);
      var declared := GetString(key.blob).value;
      FramesExactly(declared.rest);
      var others :| IsFramedAs(declared.rest, others);
      OneMoreField(declared.value, declared.rest, others);
      if key.keyType == ED25519_KEY_TYPE {
        SecondIsRead(declared.rest, others);
      }
    }
    if key.keyType != [] && |key.blob| <= MAX_KEY_BLOB {
      forall fields |
        && IsFramedAs(key.blob, fields) && fields != [] && fields[0] == Ascii(key.keyType)
        && (key.keyType == ED25519_KEY_TYPE ==> |fields| >= 2 && |fields[1]| == 32)
        ensures IsWellFormed(key)
      {
        var rest := PutStrings(fields[1..]).value;
        StringRoundTrip(fields[0], rest);
        assert IsFramedAs(rest, fields[1..]);
        FramesExactly(rest);
        if key.keyType == ED25519_KEY_TYPE {
          SecondIsRead(rest, fields[1..]);
        }
      }
    }
  }

  lemma SecondIsRead(rest: Bytes, fields: seq<Bytes>)
    requires IsFramedAs(rest, fields)
    ensures GetString(rest).Ok? <==> fields != []
    ensures fields != [] ==> GetString(rest).value.value == fields[0]
  {
    if fields != [] {
      StringRoundTrip(fields[0], PutStrings(fields[1..]).value);
    }
  }

  // --- The framing of a raw signature -------------------------------------------

  datatype RawSignature = RawSignature(algorithm: Bytes, raw: Bytes)

  function Rfc4253Signature(signature: RawSignature): (r: Result<Bytes, FormatError>) {
    var algorithm :- PutString(signature.algorithm);
    var raw :- PutString(signature.raw);
    Ok(algorithm + raw)
  }

  function ParseRfc4253Signature(blob: Bytes): (r: Result<RawSignature, FormatError>) {
    var algorithm :- GetString(blob);
    var raw :- GetString(algorithm.rest);
    if raw.rest != [] then Err(TrailingBytes)
    else if !IsAscii(algorithm.value) then Err(NotAscii)
    else Ok(RawSignature(algorithm.value, raw.value))
  }

  method ParseSignature(blob: Bytes) returns (r: Result<RawSignature, FormatError>)
    ensures r == ParseRfc4253Signature(blob)
  {
    var reader := new WireReader(blob);
    var algorithm :- reader.String();
    var raw :- reader.String();
    var _ :- reader.Finish();
    if !IsAscii(algorithm) {
      return Err(NotAscii);
    }
    r := Ok(RawSignature(algorithm, raw));
  }

  /** Framing and parsing a raw signature are mutually inverse on what the parser accepts. */
  lemma SignatureRoundTrip(signature: RawSignature, blob: Bytes)
    ensures ParseRfc4253Signature(blob) == Ok(signature) <==>
            && Rfc4253Signature(signature) == Ok(blob)
            && |signature.algorithm| <= MAX_STRING && |signature.raw| <= MAX_STRING && IsAscii(signature.algorithm)
  {
    if ParseRfc4253Signature(blob) == Ok(signature) {
      StringReadIsFramed(blob);
      var rest := GetString(blob).value.rest;
      StringReadIsFramed(rest);
      assert PutString(signature.raw).value + [] == PutString(signature.raw).value;
    }
    if Rfc4253Signature(signature) == Ok(blob) && |signature.algorithm| <= MAX_STRING && |signature.raw| <= MAX_STRING {
      StringRoundTrip(signature.algorithm, PutString(signature.raw).value);
      StringRoundTrip(signature.raw, []);
      assert PutString(signature.raw).value + [] == PutString(signature.raw).value;
    }
  }
}
