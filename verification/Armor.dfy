/** The text armor around a signature blob: base64 (section 4 of RFC 4648), wrapped between two markers. */
module Armor {
  import opened Common
  import opened Wire

  const ARMOR_BEGIN := "-----BEGIN SSH SIGNATURE-----"
  const ARMOR_END := "-----END SSH SIGNATURE-----"
  const MAX_ARMORED_LENGTH := 8192

  type sextet = i: int | 0 <= i < 64

  // --- Base64 ----------------------------------------------------------------

  function Symbol(i: sextet): (c: char)
    ensures IsSymbol(c) && Index(c) == i
  {
    if i < 26 then 'A' + i as char
    else if i < 52 then 'a' + (i - 26) as char
    else if i < 62 then '0' + (i - 52) as char
    else if i == 62 then '+' else '/'
  }

  predicate IsSymbol(c: char) {
    'A' <= c <= 'Z' || 'a' <= c <= 'z' || '0' <= c <= '9' || c == '+' || c == '/'
  }

  function Index(c: char): (r: sextet)
    requires IsSymbol(c)
  {
    if 'A' <= c <= 'Z' then c as int - 'A' as int
    else if 'a' <= c <= 'z' then c as int - 'a' as int + 26
    else if '0' <= c <= '9' then c as int - '0' as int + 52
    else if c == '+' then 62 else 63
  }

  /** Four symbols for three bytes. */
  function Quad(a: byte, b: byte, c: byte): (q: string)
    ensures |q| == 4 && forall i | 0 <= i < 4 :: IsSymbol(q[i])
  {
    var x, y, z := a as int, b as int, c as int;
    [Symbol(x / 4), Symbol(x % 4 * 16 + y / 16), Symbol(y % 16 * 4 + z / 64), Symbol(z % 64)]
  }

  function Encode64(data: Bytes): (text: string)
    decreases |data|
  {
    if |data| == 0 then ""
    else if |data| == 1 then Quad(data[0], 0, 0)[..2] + "=="
    else if |data| == 2 then Quad(data[0], data[1], 0)[..3] + "="
    else Quad(data[0], data[1], data[2]) + Encode64(data[3..])
  }

  /** The three bytes four symbols spell. */
  function Triple(q: string): (t: Bytes)
    requires |q| == 4 && forall i | 0 <= i < 4 :: IsSymbol(q[i])
    ensures |t| == 3
  {
    var i, j, k, l := Index(q[0]), Index(q[1]), Index(q[2]), Index(q[3]);
    [(i * 4 + j / 16) as byte, (j % 16 * 16 + k / 4) as byte, (k % 4 * 64 + l) as byte]
  }

  /** How many of four characters are symbols rather than padding, or 0 when they are neither. */
  function QuadShape(q: string): (n: nat)
    requires |q| == 4
  {
    if !(IsSymbol(q[0]) && IsSymbol(q[1])) then 0
    else if IsSymbol(q[2]) && IsSymbol(q[3]) then 4
    else if IsSymbol(q[2]) && q[3] == '=' then 3
    else if q[2] == '=' && q[3] == '=' then 2
    else 0
  }

  /** Strict decoding: whole groups of four, padding only at the end, and no foreign character. */
  function Decode64(text: string): (r: Result<Bytes, FormatError>)
    decreases |text|
  {
    if |text| == 0 then Ok([])
    else if |text| < 4 then Err(NotBase64)
    else
      var q := text[..4];
      match QuadShape(q)
      case 4 =>
        var rest :- Decode64(text[4..]);
        Ok(Triple(q) + rest)
      case 3 => if |text| == 4 then Ok(Triple(q[..3] + "A")[..2]) else Err(NotBase64)
      case 2 => if |text| == 4 then Ok(Triple(q[..2] + "AA")[..1]) else Err(NotBase64)
      case _ => Err(NotBase64)
  }

  // --- The armor -------------------------------------------------------------

  /** Lines of `wrap` characters, one line break between each. */
  function Wrapped(text: string, wrap: nat): (r: string)
    requires wrap > 0
    decreases |text|
  {
    if |text| <= wrap then text else text[..wrap] + "\n" + Wrapped(text[wrap..], wrap)
  }

  function Armored(blob: Bytes, wrap: nat): (r: string)
    requires wrap > 0
  {
    ARMOR_BEGIN + ("\n" + Wrapped(Encode64(blob), wrap) + "\n") + ARMOR_END + "\n"
  }

  /** What Python's argument-less split treats as white space. */
  predicate IsSpace(c: char) {
    var n := c as int;
    || 0x09 <= n <= 0x0D || 0x1C <= n <= 0x20 || n == 0x85 || n == 0xA0 || n == 0x1680
    || 0x2000 <= n <= 0x200A || n == 0x2028 || n == 0x2029 || n == 0x202F || n == 0x205F || n == 0x3000
  }

  function Condense(text: string): (r: string) {
    if text == "" then ""
    else (if IsSpace(text[0]) then "" else [text[0]]) + Condense(text[1..])
  }

  /** The same characters, one by one. */
  const WHITE_SPACE: string :=
    "\t\n\U{000B}\U{000C}\r\U{001C}\U{001D}\U{001E}\U{001F} \U{0085}\U{00A0}\U{1680}"
    + "\U{2000}\U{2001}\U{2002}\U{2003}\U{2004}\U{2005}\U{2006}\U{2007}\U{2008}\U{2009}\U{200A}"
    + "\U{2028}\U{2029}\U{202F}\U{205F}\U{3000}"

  /** Condensing takes out these characters and no others, wherever they stand, and leaves the rest in order. */
  lemma {:induction false} CondensedExactly(before: string, c: char, after: string)
    ensures Condense(before + [c] + after) ==
            Condense(before) + (if c in WHITE_SPACE then [] else [c]) + Condense(after)
  {
    if before == "" {
      assert before + [c] + after == [c] + after;
      SpacesAreListed(c);
    } else {
      assert (before + [c] + after)[1..] == before[1..] + [c] + after;
      CondensedExactly(before[1..], c, after);
    }
  }

  lemma SpacesAreListed(c: char)
    ensures IsSpace(c) <==> c in WHITE_SPACE
  {
  }

  /** Where the first end marker starts, at or after a position. */
  function FindEnd(text: string, from: nat): (r: Option<nat>)
    requires from <= |text|
    ensures r.Some? ==>
              from <= r.value <= |text| && ARMOR_END <= text[r.value..]
              && forall i | from <= i < r.value :: !(ARMOR_END <= text[i..])
    ensures r.None? ==> forall i | from <= i <= |text| :: !(ARMOR_END <= text[i..])
    decreases |text| - from
  {
    if ARMOR_END <= text[from..] then Some(from)
    else if from == |text| then None
    else FindEnd(text, from + 1)
  }

  function Dearmor(text: string): (r: Result<Bytes, FormatError>) {
    if |text| > MAX_ARMORED_LENGTH then Err(BlobTooLong)
    else if !(ARMOR_BEGIN <= text) then Err(NotArmored)
    else
      var remainder := text[|ARMOR_BEGIN|..];
      match FindEnd(remainder, 0)
      case None => Err(NotArmored)
      case Some(end) => Decode64(Condense(remainder[..end]))
  }

  // --- Base64 decodes what it encodes -------------------------------------------

  /** Symbols, and behind them at most two characters of padding, in groups of four. */
  predicate IsPadded(text: string, padding: nat) {
    && |text| % 4 == 0 && padding <= 2 && (text == "" ==> padding == 0) && padding <= |text|
    && (forall i | 0 <= i < |text| - padding :: IsSymbol(text[i]))
    && (forall i | |text| - padding <= i < |text| :: text[i] == '=')
  }

  /** A text decodes exactly when it has that shape, and then to three bytes for four characters, less the padding. */
  lemma {:induction false} DecodedExactly(text: string)
    ensures Decode64(text).Ok? <==> exists padding :: IsPadded(text, padding)
    ensures forall padding | IsPadded(text, padding) ::
              Decode64(text).Ok? && |Decode64(text).value| == |text| / 4 * 3 - padding
    decreases |text|
  {
    hide Triple, IsSymbol;
    PaddingIsNoSymbol();
    if text == "" {
      assert IsPadded(text, 0);
    } else if |text| >= 4 {
      var q, rest := text[..4], text[4..];
      DecodedExactly(rest);
      assert text == q + rest;
      if QuadShape(q) == 4 && rest != "" {
        forall padding: nat
          ensures IsPadded(text, padding) <==> IsPadded(rest, padding)
        {
          assert forall i | 4 <= i < |text| :: text[i] == rest[i - 4];
        }
      } else if rest == "" && QuadShape(q) > 0 {
        assert IsPadded(text, 4 - QuadShape(q));
      } else {
        forall padding: nat
          ensures !IsPadded(text, padding)
        {
          BadGroup(text, padding);
        }
      }
    }
  }

  lemma BadGroup(text: string, padding: nat)
    requires |text| >= 4 && (QuadShape(text[..4]) == 0 || (QuadShape(text[..4]) < 4 && |text| > 4))
    ensures !IsPadded(text, padding)
  {
    PaddingIsNoSymbol();
  }

  lemma TripleOfQuad(a: byte, b: byte, c: byte)
    ensures Triple(Quad(a, b, c)) == [a, b, c]
  {
    hide Symbol, Index;
    var x, y, z := a as int, b as int, c as int;
    assert x == x / 4 * 4 + x % 4 && y == y / 16 * 16 + y % 16 && z == z / 64 * 64 + z % 64;
    QuotientAndRemainder(x % 4 * 16 + y / 16, 16, x % 4, y / 16);
    QuotientAndRemainder(y % 16 * 4 + z / 64, 4, y % 16, z / 64);
  }

  lemma PaddedQuads(a: byte, b: byte)
    ensures Quad(a, 0, 0)[2..] == "AA" && Quad(a, b, 0)[3..] == "A"
  {
    assert Symbol(0) == 'A';
    var x, y := a as int, b as int;
    assert Quad(a, 0, 0)[2] == 'A' && Quad(a, 0, 0)[3] == 'A';
    assert Quad(a, b, 0)[3] == 'A';
  }

  lemma {:induction false} Base64RoundTrip(data: Bytes)
    ensures Decode64(Encode64(data)) == Ok(data)
    decreases |data|
  {
    hide Quad, Triple, IsSymbol;
    var text := Encode64(data);
    if |data| == 1 {
      var q := Quad(data[0], 0, 0);
      PaddedQuads(data[0], 0);
      TripleOfQuad(data[0], 0, 0);
      PaddingIsNoSymbol();
      assert text[..4] == text && text[..2] == q[..2];
      assert text[..2] + "AA" == q && Triple(q)[..1] == data;
    } else if |data| == 2 {
      var q := Quad(data[0], data[1], 0);
      PaddedQuads(data[0], data[1]);
      TripleOfQuad(data[0], data[1], 0);
      PaddingIsNoSymbol();
      assert text[..4] == text && text[..3] == q[..3];
      assert text[..3] + "A" == q && Triple(q)[..2] == data;
    } else if |data| >= 3 {
      var q := Quad(data[0], data[1], data[2]);
      TripleOfQuad(data[0], data[1], data[2]);
      Base64RoundTrip(data[3..]);
      assert text[..4] == q && text[4..] == Encode64(data[3..]);
      assert data == [data[0], data[1], data[2]] + data[3..];
    }
  }

  lemma PaddingIsNoSymbol()
    ensures !IsSymbol('=')
  {
  }

  lemma {:induction false} EncodedAlphabet(data: Bytes)
    ensures forall i | 0 <= i < |Encode64(data)| :: IsSymbol(Encode64(data)[i]) || Encode64(data)[i] == '='
    decreases |data|
  {
    hide Quad, IsSymbol;
    if |data| >= 3 { EncodedAlphabet(data[3..]); }
  }

  // --- The armor comes off -----------------------------------------------------

  lemma {:induction false} CondenseJoins(a: string, b: string)
    ensures Condense(a + b) == Condense(a) + Condense(b)
  {
    hide IsSpace;
    if a == "" {
      assert a + b == b;
    } else {
      assert (a + b)[1..] == a[1..] + b;
      CondenseJoins(a[1..], b);
    }
  }

  lemma {:induction false} CondenseKeeps(text: string)
    requires forall i | 0 <= i < |text| :: !IsSpace(text[i])
    ensures Condense(text) == text
  {
    hide IsSpace;
    if text != "" { CondenseKeeps(text[1..]); }
  }

  lemma LineBreakCondenses()
    ensures Condense("\n") == ""
  {
    assert "\n"[1..] == "";
  }

  lemma {:induction false} UnwrappedAgain(text: string, wrap: nat)
    requires wrap > 0 && forall i | 0 <= i < |text| :: !IsSpace(text[i])
    ensures Condense(Wrapped(text, wrap)) == text
    decreases |text|
  {
    hide IsSpace, Condense;
    if |text| <= wrap {
      CondenseKeeps(text);
    } else {
      var head, tail := text[..wrap], text[wrap..];
      UnwrappedAgain(tail, wrap);
      CondenseKeeps(head);
      LineBreakCondenses();
      CondenseJoins(head + "\n", Wrapped(tail, wrap));
      CondenseJoins(head, "\n");
      assert head + "" + tail == text;
    }
  }

  lemma {:induction false} WrappedHasNoDash(text: string, wrap: nat)
    requires wrap > 0 && '-' !in text
    ensures '-' !in Wrapped(text, wrap)
    decreases |text|
  {
    if |text| > wrap { WrappedHasNoDash(text[wrap..], wrap); }
  }

  lemma {:induction false} EndIsFound(body: string, tail: string, from: nat)
    requires '-' !in body && from <= |body|
    ensures FindEnd(body + ARMOR_END + tail, from) == Some(|body|)
    decreases |body| - from
  {
    var text := body + ARMOR_END + tail;
    if from == |body| {
      assert text[from..] == ARMOR_END + tail;
    } else {
      assert text[from..][0] == body[from];
      assert ARMOR_END[0] == '-';
      EndIsFound(body, tail, from + 1);
    }
  }

  /** Whatever the wrap, an armored blob within the cap dearmors to exactly that blob. */
  lemma ArmorRoundTrip(blob: Bytes, wrap: nat)
    requires wrap > 0 && |Armored(blob, wrap)| <= MAX_ARMORED_LENGTH
    ensures Dearmor(Armored(blob, wrap)) == Ok(blob)
  {
    hide Condense, FindEnd, Decode64, Encode64, Wrapped;
    var encoded := Encode64(blob);
    var lines := Wrapped(encoded, wrap);
    var body := "\n" + lines + "\n";
    AlphabetIsSafe(blob);
    WrappedHasNoDash(encoded, wrap);
    EndIsFound(body, "\n", 0);
    var text := Armored(blob, wrap);
    var remainder := text[|ARMOR_BEGIN|..];
    assert text == ARMOR_BEGIN + (body + ARMOR_END + "\n");
    assert remainder == body + ARMOR_END + "\n";
    assert remainder[..|body|] == body;
    BodyCondenses(encoded, wrap);
    Base64RoundTrip(blob);
  }

  /**
   What comes out of an armor: what stands between its beginning and the first end there is, condensed and decoded.
   */
  lemma DearmoredExactly(text: string, blob: Bytes)
    ensures Dearmor(text) == Ok(blob) <==>
            && |text| <= MAX_ARMORED_LENGTH
            && exists body, tail :: IsArmored(text, body, tail) && Decode64(Condense(body)) == Ok(blob)
  {
    hide FindEnd, Condense, Decode64, IsArmored;
    if ARMOR_BEGIN <= text {
      var end := FindEnd(text[|ARMOR_BEGIN|..], 0);
      if end.Some? {
        FoundIsArmored(text);
      }
    }
    forall body, tail | IsArmored(text, body, tail)
      ensures ARMOR_BEGIN <= text && FindEnd(text[|ARMOR_BEGIN|..], 0) == Some(|body|)
      ensures text[|ARMOR_BEGIN|..][..|body|] == body
    {
      ArmoredIsFound(text, body, tail);
    }
  }

  lemma FoundIsArmored(text: string)
    requires ARMOR_BEGIN <= text && FindEnd(text[|ARMOR_BEGIN|..], 0).Some?
    ensures var remainder := text[|ARMOR_BEGIN|..];
            var end := FindEnd(remainder, 0).value;
            exists tail :: IsArmored(text, remainder[..end], tail)
  {
    var remainder := text[|ARMOR_BEGIN|..];
    var end := FindEnd(remainder, 0).value;
    hide FindEnd;
    var tail := remainder[end..][|ARMOR_END|..];
    SplitAround(ARMOR_BEGIN, ARMOR_END, text, end);
    assert IsArmored(text, remainder[..end], tail);
  }

  lemma SplitAround(before: string, middle: string, text: string, at: nat)
    requires before <= text && at <= |text| - |before| && middle <= text[|before|..][at..]
    ensures var rest := text[|before|..];
            text == before + rest[..at] + middle + rest[at..][|middle|..]
  {
    var rest := text[|before|..];
    assert rest[at..] == middle + rest[at..][|middle|..];
    assert text == before + (rest[..at] + rest[at..]);
  }

  lemma ArmoredIsFound(text: string, body: string, tail: string)
    requires IsArmored(text, body, tail)
    ensures ARMOR_BEGIN <= text && FindEnd(text[|ARMOR_BEGIN|..], 0) == Some(|body|)
    ensures text[|ARMOR_BEGIN|..][..|body|] == body
  {
    var remainder := body + (ARMOR_END + tail);
    assert text == ARMOR_BEGIN + remainder;
    assert text[|ARMOR_BEGIN|..] == remainder;
    assert remainder[|body|..] == ARMOR_END + tail;
  }

  predicate IsArmored(text: string, body: string, tail: string) {
    && text == ARMOR_BEGIN + body + ARMOR_END + tail
    && forall i | 0 <= i < |body| :: !(ARMOR_END <= text[|ARMOR_BEGIN|..][i..])
  }

  lemma AlphabetIsSafe(blob: Bytes)
    ensures '-' !in Encode64(blob)
    ensures forall i | 0 <= i < |Encode64(blob)| :: !IsSpace(Encode64(blob)[i])
  {
    EncodedAlphabet(blob);
  }

  lemma BodyCondenses(encoded: string, wrap: nat)
    requires wrap > 0 && forall i | 0 <= i < |encoded| :: !IsSpace(encoded[i])
    ensures Condense("\n" + Wrapped(encoded, wrap) + "\n") == encoded
  {
    hide IsSpace, Condense, Wrapped;
    var lines := Wrapped(encoded, wrap);
    UnwrappedAgain(encoded, wrap);
    LineBreakCondenses();
    CondenseJoins("\n" + lines, "\n");
    CondenseJoins("\n", lines);
    assert "" + encoded + "" == encoded;
  }
}
