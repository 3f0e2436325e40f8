/** The SSHSIG container: the outer blob a signature travels in, and the bytes a key signs. */
module SshSig {
  import opened Common
  import opened Wire
  import opened Keys

  const MAGIC_PREAMBLE: Bytes := Ascii("SSHSIG")
  const SIG_VERSION := 1
  const MAX_BLOB_LENGTH := 4096
  const SHA256: Bytes := Ascii("sha256")
  const SHA512: Bytes := Ascii("sha512")

  /** A parsed blob. Text is held in its encoded form: UTF-8 for the namespace, ASCII for the names. */
  datatype SshSignature = SshSignature(
    version: int,
    publicKey: SshPublicKey,
    namespace: Bytes,
    reserved: Bytes,
    hashAlgorithm: Bytes,
    signatureAlgorithm: Bytes,
    signature: Bytes)

  // --- UTF-8 (section 4 of RFC 3629) ------------------------------------------

  predicate IsTail(b: byte) {
    0x80 <= b <= 0xBF
  }

  /** How many bytes the first character takes, or 0 when the bytes do not start with one. */
  function FirstCharacter(text: Bytes): (n: nat)
    requires text != []
    ensures n <= |text|
  {
    var a := text[0];
    if a < 0x80 then 1
    else if 0xC2 <= a <= 0xDF && |text| >= 2 && IsTail(text[1]) then 2
    else if 0xE0 <= a <= 0xEF && |text| >= 3 && IsTail(text[1]) && IsTail(text[2])
            && (a == 0xE0 ==> text[1] >= 0xA0) && (a == 0xED ==> text[1] < 0xA0) then 3
    else if 0xF0 <= a <= 0xF4 && |text| >= 4 && IsTail(text[1]) && IsTail(text[2]) && IsTail(text[3])
            && (a == 0xF0 ==> text[1] >= 0x90) && (a == 0xF4 ==> text[1] < 0x90) then 4
    else 0
  }

  predicate IsUtf8(text: Bytes)
    decreases |text|
  {
    text == [] || (FirstCharacter(text) > 0 && IsUtf8(text[FirstCharacter(text)..]))
  }

  // --- The outer blob -------------------------------------------------------------

  function ToBlob(s: SshSignature): (r: Result<Bytes, FormatError>) {
    var version :- PutUint32(s.version);
    var inner :- Rfc4253Signature(RawSignature(s.signatureAlgorithm, s.signature));
    var fields :- PutStrings([s.publicKey.blob, s.namespace, s.reserved, s.hashAlgorithm, inner]);
    Ok(MAGIC_PREAMBLE + version + fields)
  }

  /** What the five framed fields mean, when they mean anything. */
  function Interpret(fields: seq<Bytes>): (r: Result<SshSignature, FormatError>)
    requires |fields| == 5
  {
    var key :- KeyFromBlob(fields[0]);
    if fields[1] == [] then Err(EmptyNamespace) else
    if !IsUtf8(fields[1]) then Err(NotUtf8) else
    if !IsAscii(fields[3]) then Err(NotAscii) else
    if fields[3] != SHA512 then Err(HashNotAllowed) else
    var signature :- ParseRfc4253Signature(fields[4]);
    Ok(SshSignature(SIG_VERSION, key, fields[1], fields[2], fields[3], signature.algorithm, signature.raw))
  }

  /** What follows the preamble and the version. */
  function AfterPreamble(blob: Bytes): (r: Result<Bytes, FormatError>) {
    var magic :- GetFixed(blob, |MAGIC_PREAMBLE|);
    if magic.value != MAGIC_PREAMBLE then Err(BadPreamble) else
    var version :- GetUint32(magic.rest);
    if version.value != SIG_VERSION then Err(BadVersion) else Ok(version.rest)
  }

  function GetFields(rest: Bytes): (r: Result<Reading<seq<Bytes>>, FormatError>)
    ensures r.Ok? ==> |r.value.value| == 5
  {
    var key :- GetString(rest);
    var namespace :- GetString(key.rest);
    var reserved :- GetString(namespace.rest);
    var hashName :- GetString(reserved.rest);
    var inner :- GetString(hashName.rest);
    Ok(Reading([key.value, namespace.value, reserved.value, hashName.value, inner.value], inner.rest))
  }

  function FromBody(rest: Bytes): (r: Result<SshSignature, FormatError>) {
    var fields :- GetFields(rest);
    if fields.rest != [] then Err(TrailingBytes) else Interpret(fields.value)
  }

  function FromBlob(blob: Bytes): (r: Result<SshSignature, FormatError>) {
    if |blob| > MAX_BLOB_LENGTH then Err(BlobTooLong) else
    var rest :- AfterPreamble(blob);
    FromBody(rest)
  }

  method ReadPreamble(reader: WireReader) returns (r: Result<(), FormatError>)
    requires reader.Valid()
    modifies reader
    ensures reader.Valid()
    ensures match AfterPreamble(old(reader.Rest()))
            case Ok(rest) => r == Ok(()) && reader.Rest() == rest
            case Err(e) => r == Err(e)
  {
    var magic :- reader.Fixed(|MAGIC_PREAMBLE|);
    if magic != MAGIC_PREAMBLE {
      return Err(BadPreamble);
    }
    var version :- reader.Uint32();
    r := if version != SIG_VERSION then Err(BadVersion) else Ok(());
  }

  /** The fields as they are read: each is judged when it is met, and nothing may trail. */
  method ReadBody(reader: WireReader) returns (r: Result<SshSignature, FormatError>)
    requires reader.Valid()
    modifies reader
    ensures r.Ok? <==> FromBody(old(reader.Rest())).Ok?
    ensures r.Ok? ==> r == FromBody(old(reader.Rest()))
  {
    hide GetString;
    var keyBlob :- reader.String();
    var publicKey :- Keys.FromBlob(keyBlob);
    var namespace :- reader.String();
    if namespace == [] {
      return Err(EmptyNamespace);
    }
    if !IsUtf8(namespace) {
      return Err(NotUtf8);
    }
    var reserved :- reader.String();
    var hashName :- reader.String();
    if !IsAscii(hashName) {
      return Err(NotAscii);
    }
    if hashName != SHA512 {
      return Err(HashNotAllowed);
    }
    var inner :- reader.String();
    var signature :- ParseSignature(inner);
    var _ :- reader.Finish();
    r := Ok(SshSignature(SIG_VERSION, publicKey, namespace, reserved, hashName, signature.algorithm, signature.raw));
  }

  /** The decoder as it runs, over one reader. */
  method Decode(blob: Bytes) returns (r: Result<SshSignature, FormatError>)
    ensures r.Ok? <==> FromBlob(blob).Ok?
    ensures r.Ok? ==> r == FromBlob(blob)
  {
    if |blob| > MAX_BLOB_LENGTH {
      return Err(BlobTooLong);
    }
    var reader := new WireReader(blob);
    var _ :- ReadPreamble(reader);
    r := ReadBody(reader);
  }

  /** The signatures a decoder can be made to yield: what a producer has to stay within. */
  predicate IsAcceptable(s: SshSignature) {
    && s.version == SIG_VERSION
    && IsWellFormed(s.publicKey) && IsAsciiText(s.publicKey.keyType)
    && s.namespace != [] && IsUtf8(s.namespace)
    && s.hashAlgorithm == SHA512
    && IsAscii(s.signatureAlgorithm)
    && ToBlob(s).Ok? && |ToBlob(s).value| <= MAX_BLOB_LENGTH
  }

  // --- Encoder and decoder are mutually inverse -----------------------------------

  /** The preamble and the version come off what they were put on, and nothing else passes for them. */
  lemma PreambleRoundTrip(blob: Bytes, rest: Bytes)
    ensures AfterPreamble(blob) == Ok(rest) <==> blob == MAGIC_PREAMBLE + PutUint32(SIG_VERSION).value + rest
  {
    var version := PutUint32(SIG_VERSION).value;
    if blob == MAGIC_PREAMBLE + version + rest {
      assert blob[..6] == MAGIC_PREAMBLE && blob[6..] == version + rest;
      assert (version + rest)[..4] == version && (version + rest)[4..] == rest;
      Uint32RoundTrip(SIG_VERSION);
    }
    if AfterPreamble(blob) == Ok(rest) {
      BigEndianIsInjective(blob[6..][..4]);
      assert blob == blob[..6] + blob[6..][..4] + blob[6..][4..];
    }
  }

  function Prepend(first: Bytes, others: Result<Reading<seq<Bytes>>, FormatError>)
    : (r: Result<Reading<seq<Bytes>>, FormatError>)
  {
    if others.Err? then others else Ok(Reading([first] + others.value.value, others.value.rest))
  }

  lemma RowStep(row: Bytes, count: nat)
    ensures GetString(row).Err? ==> GetStrings(row, count + 1) == Err(GetString(row).error)
    ensures GetString(row).Ok? ==>
              GetStrings(row, count + 1) ==
              Prepend(GetString(row).value.value, GetStrings(GetString(row).value.rest, count))
  {
  }

  lemma FieldsAreARow(rest: Bytes)
    ensures GetFields(rest) == GetStrings(rest, 5)
  {
    hide GetString;
    RowStep(rest, 4);
    if GetString(rest).Ok? {
      var a := GetString(rest).value;
      RowStep(a.rest, 3);
      if GetString(a.rest).Ok? {
        var b := GetString(a.rest).value;
        RowStep(b.rest, 2);
        if GetString(b.rest).Ok? {
          var c := GetString(b.rest).value;
          RowStep(c.rest, 1);
          if GetString(c.rest).Ok? {
            var d := GetString(c.rest).value;
            RowStep(d.rest, 0);
            if GetString(d.rest).Ok? {
              var e := GetString(d.rest).value;
              assert GetStrings(e.rest, 0) == Ok(Reading([], e.rest));
              assert [a.value] + ([b.value] + ([c.value] + ([d.value] + ([e.value] + []))))
                  == [a.value, b.value, c.value, d.value, e.value];
            }
          }
        }
      }
    }
  }

  /** The five fields a signature is written as. */
  function Fields(s: SshSignature): (fields: seq<Bytes>)
    requires Rfc4253Signature(RawSignature(s.signatureAlgorithm, s.signature)).Ok?
    ensures |fields| == 5
  {
    [s.publicKey.blob, s.namespace, s.reserved, s.hashAlgorithm,
     Rfc4253Signature(RawSignature(s.signatureAlgorithm, s.signature)).value]
  }

  predicate MeansSomething(s: SshSignature) {
    && s.version == SIG_VERSION
    && IsWellFormed(s.publicKey) && IsAsciiText(s.publicKey.keyType)
    && s.namespace != [] && IsUtf8(s.namespace)
    && s.hashAlgorithm == SHA512
    && IsAscii(s.signatureAlgorithm) && |s.signatureAlgorithm| <= MAX_STRING && |s.signature| <= MAX_STRING
    && Rfc4253Signature(RawSignature(s.signatureAlgorithm, s.signature)).Ok?
  }

  lemma FieldsRoundTrip(s: SshSignature, fields: seq<Bytes>)
    requires |fields| == 5
    ensures Interpret(fields) == Ok(s) <==> MeansSomething(s) && fields == Fields(s)
  {
    hide ParseRfc4253Signature, Rfc4253Signature, IsWellFormed, IsUtf8;
    SignatureRoundTrip(RawSignature(s.signatureAlgorithm, s.signature), fields[4]);
    if Interpret(fields).Ok? {
      KeyRoundTrip(KeyFromBlob(fields[0]).value);
    }
    if MeansSomething(s) && fields == Fields(s) {
      KeyRoundTrip(s.publicKey);
    }
  }

  /** A blob decodes to a signature exactly when it is that signature's encoding, within the cap. */
  lemma BlobRoundTrip(s: SshSignature, blob: Bytes)
    ensures FromBlob(blob) == Ok(s) <==> IsAcceptable(s) && ToBlob(s) == Ok(blob)
  {
    if IsAcceptable(s) && ToBlob(s) == Ok(blob) { EncodedDecodes(s); }
    if FromBlob(blob) == Ok(s) { DecodedEncodes(blob); }
  }

  lemma EncodedDecodes(s: SshSignature)
    requires IsAcceptable(s)
    ensures FromBlob(ToBlob(s).value) == Ok(s)
  {
    hide AfterPreamble, GetFields, PutStrings, GetStrings, Interpret;
    var row := PutStrings(Fields(s)).value;
    StringsFitTheirRow(Fields(s));
    assert |Fields(s)[4]| >= |s.signatureAlgorithm| + |s.signature|;
    PreambleRoundTrip(ToBlob(s).value, row);
    StringsRoundTrip(Fields(s), []);
    FieldsAreARow(row);
    assert row + [] == row;
    FieldsRoundTrip(s, Fields(s));
  }

  lemma DecodedEncodes(blob: Bytes)
    requires FromBlob(blob).Ok?
    ensures IsAcceptable(FromBlob(blob).value) && ToBlob(FromBlob(blob).value) == Ok(blob)
  {
    hide AfterPreamble, GetFields, PutStrings, GetStrings, Interpret, Rfc4253Signature;
    var row := AfterPreamble(blob).value;
    PreambleRoundTrip(blob, row);
    FieldsAreARow(row);
    StringsReadAreFramed(row, 5);
    var fields := GetFields(row).value.value;
    FieldsRoundTrip(FromBlob(blob).value, fields);
    assert row == PutStrings(fields).value + [] == PutStrings(fields).value;
  }

  /** No accepted blob stays accepted with anything appended to it. */
  lemma TrailingBytesAreRefused(blob: Bytes, more: Bytes)
    requires FromBlob(blob).Ok? && more != []
    ensures FromBlob(blob + more).Err?
  {
    hide AfterPreamble, GetFields, PutStrings, GetStrings, Interpret;
    var row := AfterPreamble(blob).value;
    PreambleRoundTrip(blob, row);
    PreambleRoundTrip(blob + more, row + more);
    FieldsAreARow(row);
    FieldsAreARow(row + more);
    StringsReadAreFramed(row, 5);
    var fields := GetFields(row).value.value;
    StringsRoundTrip(fields, more);
    assert row + more == PutStrings(fields).value + more;
  }

  // --- The signed bytes ---------------------------------------------------------

  /** What precedes the message hash: the binding of a signature to a namespace and an algorithm. */
  function Binding(namespace: Bytes, algorithm: Bytes): (r: Result<Bytes, FormatError>) {
    var framedNamespace :- PutString(namespace);
    var framedReserved :- PutString([]);
    var framedAlgorithm :- PutString(algorithm);
    Ok(MAGIC_PREAMBLE + framedNamespace + framedReserved + framedAlgorithm)
  }

  /** The bytes a key signs. `hash` stands for the digest the named algorithm takes of a message. */
  function SignedData(message: Bytes, namespace: Bytes, algorithm: Bytes, hash: (Bytes, Bytes) -> Bytes)
    : (r: Result<Bytes, FormatError>)
  {
    if namespace == [] then Err(EmptyNamespace) else
    var binding :- Binding(namespace, algorithm);
    if algorithm != SHA256 && algorithm != SHA512 then Err(HashNotAllowed) else
    var framedHash :- PutString(hash(algorithm, message));
    Ok(binding + framedHash)
  }

  /** What can be signed, and what the signed bytes are: the preamble and four framed strings, one of them empty. */
  lemma SignedDataExactly(message: Bytes, namespace: Bytes, algorithm: Bytes, hash: (Bytes, Bytes) -> Bytes)
    ensures var data := SignedData(message, namespace, algorithm, hash);
            var fields := [namespace, [], algorithm, hash(algorithm, message)];
            && (data.Ok? <==>
                namespace != [] && algorithm in {Ascii("sha256"), Ascii("sha512")} && PutStrings(fields).Ok?)
            && (data.Ok? ==> data.value == Ascii("SSHSIG") + PutStrings(fields).value)
  {
    hide PutStrings, PutString, Ascii;
    var digest := hash(algorithm, message);
    RowOfOne(digest);
    RowOfMore(algorithm, [digest]);
    RowOfMore([], [algorithm, digest]);
    RowOfMore(namespace, [[], algorithm, digest]);
    EmptyIsFramed();
    var row: seq<Bytes> := [[], algorithm, digest];
    assert [algorithm] + [digest] == [algorithm, digest] && [[]] + [algorithm, digest] == row;
    assert [namespace] + row == [namespace, [], algorithm, digest];
    if PutString(namespace).Ok? && PutString(algorithm).Ok? && PutString(digest).Ok? {
      var a, b, c, d :=
        PutString(namespace).value, PutString([]).value, PutString(algorithm).value, PutString(digest).value;
      assert MAGIC_PREAMBLE + a + b + c + d == MAGIC_PREAMBLE + (a + (b + (c + d)));
    }
  }

  lemma EmptyIsFramed()
    ensures PutString([]).Ok?
  {
  }

  lemma RowOfOne(value: Bytes)
    ensures PutStrings([value]).Ok? <==> PutString(value).Ok?
    ensures PutString(value).Ok? ==> PutStrings([value]).value == PutString(value).value
  {
  }

  lemma RowOfMore(first: Bytes, others: seq<Bytes>)
    ensures PutStrings([first] + others).Ok? <==> PutString(first).Ok? && PutStrings(others).Ok?
    ensures PutStrings([first] + others).Ok? ==>
              PutStrings([first] + others).value == PutString(first).value + PutStrings(others).value
  {
    assert ([first] + others)[1..] == others;
  }

  lemma BindingIsUnambiguous(n1: Bytes, a1: Bytes, rest1: Bytes, n2: Bytes, a2: Bytes, rest2: Bytes)
    requires Binding(n1, a1).Ok? && Binding(n2, a2).Ok?
    requires Binding(n1, a1).value + rest1 == Binding(n2, a2).value + rest2
    ensures n1 == n2 && a1 == a2 && rest1 == rest2
  {
    var blob := Binding(n1, a1).value + rest1;
    var r1, r2 := PutString(a1).value + rest1, PutString(a2).value + rest2;
    var s1, s2 := PutString([]).value + r1, PutString([]).value + r2;
    var t1, t2 := PutString(n1).value + s1, PutString(n2).value + s2;
    assert blob == MAGIC_PREAMBLE + t1;
    assert blob == MAGIC_PREAMBLE + t2;
    assert t1 == blob[6..] && t2 == blob[6..];
    FramedStringsAreUnambiguous(n1, s1, n2, s2);
    FramedStringsAreUnambiguous([], r1, [], r2);
    FramedStringsAreUnambiguous(a1, rest1, a2, rest2);
  }

  /** One signed-data blob stands for one namespace, one algorithm and one message hash. */
  lemma SignedDataIsUnambiguous(
    m1: Bytes, n1: Bytes, a1: Bytes, m2: Bytes, n2: Bytes, a2: Bytes, hash: (Bytes, Bytes) -> Bytes)
    requires SignedData(m1, n1, a1, hash).Ok?
    requires SignedData(m1, n1, a1, hash) == SignedData(m2, n2, a2, hash)
    ensures n1 == n2 && a1 == a2 && hash(a1, m1) == hash(a2, m2)
  {
    var h1, h2 := PutString(hash(a1, m1)).value, PutString(hash(a2, m2)).value;
    BindingIsUnambiguous(n1, a1, h1, n2, a2, h2);
    assert h1 + [] == h1 && h2 + [] == h2;
    FramedStringsAreUnambiguous(hash(a1, m1), [], hash(a2, m2), []);
  }
}
