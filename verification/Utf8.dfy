/** Text is accepted exactly when it is the encoding of some characters (section 3 of RFC 3629). */
module Utf8 {
  import opened Common
  import opened Wire
  import opened SshSig

  /** A character number that is no surrogate. */
  predicate IsScalar(c: nat) {
    c < 0xD800 || 0xE000 <= c < 0x11_0000
  }

  /** One to four bytes, as few as hold the number. */
  function Encode(c: nat): (bytes: Bytes)
    requires IsScalar(c)
    ensures |bytes| > 0
  {
    if c < 0x80 then [c as byte]
    else if c < 0x800 then [(0xC0 + c / 0x40) as byte, (0x80 + c % 0x40) as byte]
    else if c < 0x1_0000 then
      [(0xE0 + c / 0x1000) as byte, (0x80 + c / 0x40 % 0x40) as byte, (0x80 + c % 0x40) as byte]
    else
      [(0xF0 + c / 0x4_0000) as byte, (0x80 + c / 0x1000 % 0x40) as byte, (0x80 + c / 0x40 % 0x40) as byte,
       (0x80 + c % 0x40) as byte]
  }

  function EncodeAll(characters: seq<nat>): (bytes: Bytes)
    requires forall c | c in characters :: IsScalar(c)
  {
    if characters == [] then [] else Encode(characters[0]) + EncodeAll(characters[1..])
  }

  /** Some characters, and their encoding. */
  ghost predicate IsEncodingOf(text: Bytes, characters: seq<nat>) {
    (forall c | c in characters :: IsScalar(c)) && EncodeAll(characters) == text
  }

  // --- One character -----------------------------------------------------------------------------

  lemma EncodedIsRecognised(c: nat, rest: Bytes)
    requires IsScalar(c)
    ensures FirstCharacter(Encode(c) + rest) == |Encode(c)|
  {
    if c < 0x80 {
    } else if c < 0x800 {
      TwoAreRecognised((0xC0 + c / 0x40) as byte, (0x80 + c % 0x40) as byte, rest);
    } else if c < 0x1_0000 {
      var high := c / 0x40;
      assert c / 0x1000 == high / 0x40;
      ThreeAreRecognised((0xE0 + c / 0x1000) as byte, (0x80 + high % 0x40) as byte, (0x80 + c % 0x40) as byte, rest);
    } else {
      var high := c / 0x1000;
      assert c / 0x4_0000 == high / 0x40;
      FourAreRecognised((0xF0 + c / 0x4_0000) as byte, (0x80 + high % 0x40) as byte, (0x80 + c / 0x40 % 0x40) as byte,
                        (0x80 + c % 0x40) as byte, rest);
    }
  }

  lemma TwoAreRecognised(a: byte, b: byte, rest: Bytes)
    requires 0xC2 <= a <= 0xDF && 0x80 <= b <= 0xBF
    ensures FirstCharacter([a, b] + rest) == 2
  {
    assert ([a, b] + rest)[..2] == [a, b];
  }

  lemma ThreeAreRecognised(a: byte, b: byte, c: byte, rest: Bytes)
    requires 0xE0 <= a <= 0xEF && 0x80 <= b <= 0xBF && 0x80 <= c <= 0xBF
    requires (a == 0xE0 ==> b >= 0xA0) && (a == 0xED ==> b < 0xA0)
    ensures FirstCharacter([a, b, c] + rest) == 3
  {
    assert ([a, b, c] + rest)[..3] == [a, b, c];
  }

  lemma FourAreRecognised(a: byte, b: byte, c: byte, d: byte, rest: Bytes)
    requires 0xF0 <= a <= 0xF4 && 0x80 <= b <= 0xBF && 0x80 <= c <= 0xBF && 0x80 <= d <= 0xBF
    requires (a == 0xF0 ==> b >= 0x90) && (a == 0xF4 ==> b < 0x90)
    ensures FirstCharacter([a, b, c, d] + rest) == 4
  {
    assert ([a, b, c, d] + rest)[..4] == [a, b, c, d];
  }

  /** The number that one to four bytes stand for. */
  function Decode1(bytes: Bytes): (c: nat)
    requires 1 <= |bytes| <= 4 && FirstCharacter(bytes) == |bytes|
  {
    if |bytes| == 1 then bytes[0] as nat
    else if |bytes| == 2 then (bytes[0] as nat - 0xC0) * 0x40 + (bytes[1] as nat - 0x80)
    else if |bytes| == 3 then
      (bytes[0] as nat - 0xE0) * 0x1000 + (bytes[1] as nat - 0x80) * 0x40 + (bytes[2] as nat - 0x80)
    else
      (bytes[0] as nat - 0xF0) * 0x4_0000 + (bytes[1] as nat - 0x80) * 0x1000 + (bytes[2] as nat - 0x80) * 0x40
      + (bytes[3] as nat - 0x80)
  }

  lemma RecognisedAlone(text: Bytes)
    requires text != [] && FirstCharacter(text) > 0
    ensures var first := text[..FirstCharacter(text)];
            1 <= |first| <= 4 && FirstCharacter(first) == |first|
  {
  }

  lemma RecognisedIsEncoded(bytes: Bytes)
    requires 1 <= |bytes| <= 4 && FirstCharacter(bytes) == |bytes|
    ensures IsScalar(Decode1(bytes)) && Encode(Decode1(bytes)) == bytes
  {
    if |bytes| == 2 {
      TwoAreEncoded(bytes[0] as nat - 0xC0, bytes[1] as nat - 0x80);
    } else if |bytes| == 3 {
      ThreeAreEncoded(bytes[0] as nat - 0xE0, bytes[1] as nat - 0x80, bytes[2] as nat - 0x80);
    } else if |bytes| == 4 {
      FourAreEncoded(bytes[0] as nat - 0xF0, bytes[1] as nat - 0x80, bytes[2] as nat - 0x80, bytes[3] as nat - 0x80);
    }
  }

  lemma TwoAreEncoded(a: nat, b: nat)
    requires 2 <= a < 0x20 && b < 0x40
    ensures var c := a * 0x40 + b;
            0x80 <= c < 0x800 && Encode(c) == [(0xC0 + a) as byte, (0x80 + b) as byte]
  {
    Digits(a, b);
  }

  lemma ThreeAreEncoded(a: nat, b: nat, c: nat)
    requires a < 0x10 && b < 0x40 && c < 0x40 && (a == 0 ==> b >= 0x20) && (a == 0xD ==> b < 0x20)
    ensures var n := a * 0x1000 + b * 0x40 + c;
            0x800 <= n < 0x1_0000 && IsScalar(n)
            && Encode(n) == [(0xE0 + a) as byte, (0x80 + b) as byte, (0x80 + c) as byte]
  {
    var n := a * 0x1000 + b * 0x40 + c;
    Digits(a, b);
    Digits(a * 0x40 + b, c);
    assert n / 0x1000 == (a * 0x40 + b) / 0x40;
  }

  lemma FourAreEncoded(a: nat, b: nat, c: nat, d: nat)
    requires a <= 4 && b < 0x40 && c < 0x40 && d < 0x40 && (a == 0 ==> b >= 0x10) && (a == 4 ==> b < 0x10)
    ensures var n := a * 0x4_0000 + b * 0x1000 + c * 0x40 + d;
            0x1_0000 <= n < 0x11_0000
            && Encode(n) == [(0xF0 + a) as byte, (0x80 + b) as byte, (0x80 + c) as byte, (0x80 + d) as byte]
  {
    var n := a * 0x4_0000 + b * 0x1000 + c * 0x40 + d;
    var high := (a * 0x40 + b) * 0x40 + c;
    Digits(a, b);
    Digits(a * 0x40 + b, c);
    Digits(high, d);
    assert n / 0x1000 == high / 0x40 && n / 0x4_0000 == (a * 0x40 + b) / 0x40;
  }

  lemma Digits(high: nat, low: nat)
    requires low < 0x40
    ensures (high * 0x40 + low) / 0x40 == high && (high * 0x40 + low) % 0x40 == low
  {
  }

  // --- All of them -------------------------------------------------------------------------------

  lemma {:induction false} EncodedIsUtf8(characters: seq<nat>)
    requires forall c | c in characters :: IsScalar(c)
    ensures IsUtf8(EncodeAll(characters))
  {
    if characters != [] {
      var first, rest := Encode(characters[0]), EncodeAll(characters[1..]);
      EncodedIsUtf8(characters[1..]);
      EncodedIsRecognised(characters[0], rest);
      assert (first + rest)[|first|..] == rest;
    }
  }

  /** Bytes pass for text exactly when they are what some characters encode to. */
  lemma {:induction false} Utf8Exactly(text: Bytes)
    ensures IsUtf8(text) <==> exists characters :: IsEncodingOf(text, characters)
    decreases |text|
  {
    hide FirstCharacter, Encode, Decode1;
    if characters :| IsEncodingOf(text, characters) {
      EncodedIsUtf8(characters);
    }
    if text == [] {
      assert IsEncodingOf(text, []);
    } else if IsUtf8(text) {
      var n := FirstCharacter(text);
      assert n > 0 && IsUtf8(text[n..]);
      RecognisedAlone(text);
      RecognisedIsEncoded(text[..n]);
      Utf8Exactly(text[n..]);
      var others :| IsEncodingOf(text[n..], others);
      var all := [Decode1(text[..n])] + others;
      assert all[1..] == others && text == text[..n] + text[n..];
      assert IsEncodingOf(text, all);
    }
  }
}
