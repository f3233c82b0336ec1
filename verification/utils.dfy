// String encoding and quoting helpers (src/utils.cpp).
//
// A C++ `std::string` / `std::string_view` is a `string` here whose characters
// stand for bytes; `ByteOf` is the `(unsigned char)` conversion the source
// applies before inspecting a byte. Each quoting routine is a loop that appends
// to a local result; it is modelled as a method with that loop, proved equal to
// a specification function built with `FlatMap`, and the specification function
// is paired with the decoder a PDF reader applies to the result.

module Utils {
  import opened Format

  /** `(unsigned char)c`. */
  function ByteOf(c: char): (b: int)
    ensures 0 <= b < 256
    ensures c as int < 256 ==> b == c as int
  {
    c as int % 256
  }

  predicate IsByteString(s: string)
  {
    forall i :: 0 <= i < |s| ==> s[i] as int < 256
  }

  /** The concatenation of `f(c)` over the characters of `s`, in order. */
  function FlatMap(s: string, f: char -> string): string
  {
    if s == [] then [] else f(s[0]) + FlatMap(s[1..], f)
  }

  /** Appending one character appends its image: the step of every quoting loop. */
  lemma {:induction false} FlatMapAppend(s: string, c: char, f: char -> string)
    ensures FlatMap(s + [c], f) == FlatMap(s, f) + f(c)
  {
    if s == [] {
      assert (s + [c])[1..] == [];
    } else {
      assert (s + [c])[1..] == s[1..] + [c];
      FlatMapAppend(s[1..], c, f);
    }
  }

  /** The invariant step of a loop that appends `f(raw[i])` to its result. */
  lemma {:induction false} FlatMapStep(prefix: string, raw: string, i: nat, f: char -> string, before: string, after: string)
    requires i < |raw|
    requires before == prefix + FlatMap(raw[..i], f)
    requires after == before + f(raw[i])
    ensures after == prefix + FlatMap(raw[..i + 1], f)
  {
    assert raw[..i + 1] == raw[..i] + [raw[i]];
    FlatMapAppend(raw[..i], raw[i], f);
    var done := FlatMap(raw[..i], f);
    assert prefix + done + f(raw[i]) == prefix + (done + f(raw[i]));
  }

  // ---------------------------------------------------------------------------
  // Literal strings (ISO 32000-2 section 7.3.4.2)
  // ---------------------------------------------------------------------------

  predicate NeedsBackslash(c: char)
  {
    c == '(' || c == ')' || c == '\\'
  }

  function EscapeChar(c: char): string
  {
    if NeedsBackslash(c) then ['\\', c] else [c]
  }

  /** The body of a literal string: a backslash before every '(', ')' and '\'. */
  function EscapedBody(raw: string): string
  {
    FlatMap(raw, EscapeChar)
  }

  /** A reader's treatment of the backslash escapes `EscapedBody` produces. */
  function Unescape(s: string): string
    decreases |s|
  {
    if s == [] then []
    else if s[0] == '\\' && |s| >= 2 then [s[1]] + Unescape(s[2..])
    else [s[0]] + Unescape(s[1..])
  }

  /** Unescaping the body of a quoted literal string gives back the input. */
  lemma {:induction false} UnescapeEscapedBody(raw: string)
    ensures Unescape(EscapedBody(raw)) == raw
    decreases |raw|
  {
    if raw != [] {
      var c := raw[0];
      var rest := EscapedBody(raw[1..]);
      assert EscapedBody(raw) == EscapeChar(c) + rest;
      UnescapeEscapedBody(raw[1..]);
      if NeedsBackslash(c) {
        assert (['\\', c] + rest)[2..] == rest;
      } else {
        assert ([c] + rest)[1..] == rest;
      }
    }
  }

  /** Escaping at most doubles the text: one backslash per character at most. */
  lemma {:induction false} EscapedBodyLength(raw: string)
    ensures |raw| <= |EscapedBody(raw)| <= 2 * |raw|
    decreases |raw|
  {
    if raw != [] {
      EscapedBodyLength(raw[1..]);
    }
  }

  /** The shared loop of `pdfstring_quote` and `u8str2u8textstring`. */
  method AppendEscaped(prefix: string, raw: string) returns (result: string)
    ensures result == prefix + EscapedBody(raw)
  {
    result := prefix;
    var i := 0;
    while i < |raw|
      invariant 0 <= i <= |raw|
      invariant result == prefix + EscapedBody(raw[..i])
    {
      var c := raw[i];
      if NeedsBackslash(c) {
        result := result + "\\";
      }
      result := result + [c];
      FlatMapAppend(raw[..i], c, EscapeChar);
      assert raw[..i + 1] == raw[..i] + [c];
      i := i + 1;
    }
    assert raw[..i] == raw;
  }

  /** `pdfstring_quote`: the input as a PDF literal string. */
  method PdfStringQuote(raw: string) returns (result: string)
    ensures result == "(" + EscapedBody(raw) + ")"
    ensures |result| >= 2 && result[0] == '(' && result[|result| - 1] == ')'
    ensures Unescape(result[1..|result| - 1]) == raw
  {
    result := AppendEscaped("(", raw);
    result := result + ")";
    assert result[1..|result| - 1] == EscapedBody(raw);
    UnescapeEscapedBody(raw);
  }

  /** The UTF-8 byte order mark EF BB BF (ISO 32000-2 section 7.9.2.2). */
  const Utf8Bom: string := [239 as char, 187 as char, 191 as char]

  /** `u8str2u8textstring`: a text string in UTF-8 form, with the byte order mark. */
  method U8StrToU8TextString(u8: string) returns (result: string)
    ensures result == "(" + Utf8Bom + EscapedBody(u8) + ")"
    ensures Unescape(result[4..|result| - 1]) == u8
  {
    result := AppendEscaped("(" + Utf8Bom, u8);
    result := result + ")";
    assert result[4..|result| - 1] == EscapedBody(u8);
    UnescapeEscapedBody(u8);
  }

  // ---------------------------------------------------------------------------
  // Names and '#xx' escapes (ISO 32000-2 section 7.3.5)
  // ---------------------------------------------------------------------------

  /** A reader's decoding of '#' followed by two hexadecimal digits. */
  function HexUnescape(s: string): string
    decreases |s|
  {
    if s == [] then []
    else if s[0] == '#' && |s| >= 3 && IsHexDigit(s[1]) && IsHexDigit(s[2]) then
      [(16 * HexValue(s[1]) + HexValue(s[2])) as char] + HexUnescape(s[3..])
    else [s[0]] + HexUnescape(s[1..])
  }

  function NameEscape(c: char): string
  {
    if c == '/' then "#2F" else if c == '#' then "#23" else [c]
  }

  /** A quoted name never contains a '/', so it cannot end the name early. */
  lemma {:induction false} QuotedNameHasNoSlash(raw: string)
    ensures '/' !in FlatMap(raw, NameEscape)
    decreases |raw|
  {
    if raw != [] {
      QuotedNameHasNoSlash(raw[1..]);
    }
  }

  /** Decoding a quoted name gives back the input. */
  lemma {:induction false} NameRoundTrip(raw: string)
    ensures HexUnescape(FlatMap(raw, NameEscape)) == raw
    decreases |raw|
  {
    if raw != [] {
      var c := raw[0];
      var rest := FlatMap(raw[1..], NameEscape);
      NameRoundTrip(raw[1..]);
      if c == '/' || c == '#' {
        assert (NameEscape(c) + rest)[3..] == rest;
      } else {
        assert ([c] + rest)[1..] == rest;
      }
    }
  }

  /** `pdfname_quote`: '/' becomes "#2F", '#' becomes "#23", all else is kept. */
  method PdfNameQuote(raw: string) returns (result: string)
    ensures result == FlatMap(raw, NameEscape)
    ensures '/' !in result
    ensures HexUnescape(result) == raw
  {
    result := "";
    var i := 0;
    while i < |raw|
      invariant 0 <= i <= |raw|
      invariant result == FlatMap(raw[..i], NameEscape)
    {
      var c := raw[i];
      if c == '/' {
        result := result + "#2F";
      } else if c == '#' {
        result := result + "#23";
      } else {
        result := result + [c];
      }
      FlatMapAppend(raw[..i], c, NameEscape);
      assert raw[..i + 1] == raw[..i] + [c];
      i := i + 1;
    }
    assert raw[..i] == raw;
    QuotedNameHasNoSlash(raw);
    NameRoundTrip(raw);
  }

  /** `needs_quoting`: not a printable regular character of a name. */
  predicate NeedsQuoting(c: char)
  {
    var b := ByteOf(c);
    b < '!' as int || b > '~' as int
    || b == '#' as int || b == '(' as int || b == ')' as int || b == ' ' as int || b == '/' as int
  }

  function LiteralEscape(c: char): string
  {
    if NeedsQuoting(c) then "#" + LowerHexByte(ByteOf(c)) else [c]
  }

  /** Printable characters, of which only '#' needs quoting. */
  predicate LiteralSafe(s: string)
  {
    forall i :: 0 <= i < |s| ==> '!' <= s[i] <= '~' && (NeedsQuoting(s[i]) ==> s[i] == '#')
  }

  /** Every character of an escaped literal is printable, and only '#' starts an escape. */
  lemma {:induction false} LiteralCharacters(raw: string)
    requires IsByteString(raw)
    ensures LiteralSafe(FlatMap(raw, LiteralEscape))
    decreases |raw|
  {
    if raw != [] {
      LiteralCharacters(raw[1..]);
      EscapeSafe(raw[0]);
      SafeConcat(LiteralEscape(raw[0]), FlatMap(raw[1..], LiteralEscape));
    }
  }

  lemma {:induction false} EscapeSafe(c: char)
    requires c as int < 256
    ensures LiteralSafe(LiteralEscape(c))
  {
    if NeedsQuoting(c) {
      var b := ByteOf(c);
      DigitSafe(b / 16);
      DigitSafe(b % 16);
      assert LiteralEscape(c) == ['#', LowerHexDigit(b / 16), LowerHexDigit(b % 16)];
    }
  }

  lemma {:induction false} DigitSafe(d: int)
    requires 0 <= d < 16
    ensures '!' <= LowerHexDigit(d) <= '~' && !NeedsQuoting(LowerHexDigit(d))
  {
  }

  lemma {:induction false} SafeConcat(a: string, b: string)
    requires LiteralSafe(a) && LiteralSafe(b)
    ensures LiteralSafe(a + b)
  {
    forall i | 0 <= i < |a + b|
      ensures '!' <= (a + b)[i] <= '~' && (NeedsQuoting((a + b)[i]) ==> (a + b)[i] == '#')
    {
      if i >= |a| {
        assert (a + b)[i] == b[i - |a|];
      }
    }
  }

  /** Decoding an escaped byte string gives back the bytes. */
  lemma {:induction false} LiteralRoundTrip(raw: string)
    requires IsByteString(raw)
    ensures HexUnescape(FlatMap(raw, LiteralEscape)) == raw
    decreases |raw|
  {
    if raw != [] {
      var c := raw[0];
      var rest := FlatMap(raw[1..], LiteralEscape);
      LiteralRoundTrip(raw[1..]);
      if NeedsQuoting(c) {
        HexByteRoundTrip(ByteOf(c));
        var e := "#" + LowerHexByte(ByteOf(c));
        assert (e + rest)[3..] == rest;
        assert (16 * HexValue(e[1]) + HexValue(e[2])) as char == c;
      } else {
        assert ([c] + rest)[1..] == rest;
      }
    }
  }

  /** `bytes2pdfstringliteral`: an optional '/', then each byte that needs quoting as "#xx". */
  method Bytes2PdfStringLiteral(raw: string, addSlash: bool) returns (result: string)
    ensures result == (if addSlash then "/" else "") + FlatMap(raw, LiteralEscape)
    ensures IsByteString(raw) ==> HexUnescape(result[if addSlash then 1 else 0..]) == raw
  {
    var prefix := if addSlash then "/" else "";
    result := prefix;
    var i := 0;
    assert raw[..i] == [];
    while i < |raw|
      invariant 0 <= i <= |raw|
      invariant result == prefix + FlatMap(raw[..i], LiteralEscape)
    {
      var c := raw[i];
      var next;
      if NeedsQuoting(c) {
        next := result + ("#" + LowerHexByte(ByteOf(c)));
      } else {
        next := result + [c];
      }
      FlatMapStep(prefix, raw, i, LiteralEscape, result, next);
      result := next;
      i := i + 1;
    }
    assert raw[..i] == raw;
    assert result[|prefix|..] == FlatMap(raw, LiteralEscape);
    if IsByteString(raw) {
      LiteralRoundTrip(raw);
    }
  }

  // ---------------------------------------------------------------------------
  // UTF-8 validation (RFC 3629 section 3, loosely)
  // ---------------------------------------------------------------------------

  /**
   * The number of continuation bytes a lead byte announces, or -1 if the byte
   * cannot start a character. The source's mask tests are written here as the
   * byte ranges they select: (b & 0xE0) == 0xC0, (b & 0xF0) == 0xE0 and
   * (b & 0xF8) == 0xF0.
   */
  function ContinuationCount(b: int): (n: int)
    requires 0 <= b < 256
    ensures -1 <= n <= 3
    ensures n == 0 <==> b < 0x80
    ensures n == -1 <==> 0x80 <= b < 0xC0 || 0xF8 <= b
  {
    if b < 0x80 then 0
    else if 0xC0 <= b < 0xE0 then 1
    else if 0xE0 <= b < 0xF0 then 2
    else if 0xF0 <= b < 0xF8 then 3
    else -1
  }

  /** A continuation byte has the bit pattern 10xxxxxx: (b & 0xC0) == 0x80. */
  predicate IsContinuation(c: char)
  {
    0x80 <= ByteOf(c) < 0xC0
  }

  /**
   * What `is_valid_utf8` accepts from index `i` on: each lead byte announces n
   * continuation bytes, which must all be present and of the form 10xxxxxx.
   * Overlong forms, surrogates and values above U+10FFFF are not checked.
   */
  predicate Utf8ValidFrom(s: string, i: nat)
    requires i <= |s|
    decreases |s| - i
  {
    if i == |s| then true
    else
      var n := ContinuationCount(ByteOf(s[i]));
      && n >= 0
      && i + n < |s|
      && (forall k :: i < k <= i + n ==> IsContinuation(s[k]))
      && Utf8ValidFrom(s, i + n + 1)
  }

  predicate Utf8Valid(s: string)
  {
    Utf8ValidFrom(s, 0)
  }

  /** `is_valid_uf8_character`: the n bytes after `cur` exist and are continuation bytes. */
  method IsValidUtf8Character(input: string, cur: nat, n: nat) returns (ok: bool)
    requires cur < |input|
    ensures ok <==> cur + n < |input| && forall k :: cur < k <= cur + n ==> IsContinuation(input[k])
  {
    if cur + n >= |input| {
      return false;
    }
    var i := 0;
    while i < n
      invariant 0 <= i <= n
      invariant forall k :: cur < k <= cur + i ==> IsContinuation(input[k])
    {
      if !IsContinuation(input[cur + 1 + i]) {
        return false;
      }
      i := i + 1;
    }
    return true;
  }

  /** `is_valid_utf8`: a scan with early exits, equal to `Utf8Valid`. */
  method IsValidUtf8(input: string) returns (ok: bool)
    ensures ok <==> Utf8Valid(input)
  {
    var i := 0;
    while i < |input|
      invariant 0 <= i <= |input|
      invariant Utf8Valid(input) <==> Utf8ValidFrom(input, i)
      decreases |input| - i
    {
      var code := ByteOf(input[i]);
      var n := ContinuationCount(code);
      if n < 0 {
        return false;
      }
      var valid := IsValidUtf8Character(input, i, n);
      if !valid {
        return false;
      }
      i := i + n + 1;
    }
    return true;
  }

  /** Validity of a suffix does not depend on what precedes it. */
  lemma {:induction false} Utf8ValidFromShift(p: string, s: string, i: nat)
    requires i <= |s|
    ensures Utf8ValidFrom(p + s, |p| + i) <==> Utf8ValidFrom(s, i)
    decreases |s| - i
  {
    if i < |s| {
      var ps := p + s;
      assert ps[|p| + i] == s[i];
      var n := ContinuationCount(ByteOf(s[i]));
      if n >= 0 && i + n < |s| {
        forall k | |p| + i < k <= |p| + i + n
          ensures ps[k] == s[k - |p|]
        {
          assert k - |p| < |s|;
        }
        forall j | i < j <= i + n
          ensures ps[|p| + j] == s[j]
        {
          assert |p| + j < |ps|;
        }
        Utf8ValidFromShift(p, s, i + n + 1);
      }
    }
  }

  /** Pure ASCII text is valid. */
  lemma {:induction false} AsciiIsValidUtf8(s: string, i: nat)
    requires i <= |s|
    requires forall j :: 0 <= j < |s| ==> ByteOf(s[j]) < 0x80
    ensures Utf8ValidFrom(s, i)
    decreases |s| - i
  {
    if i < |s| {
      AsciiIsValidUtf8(s, i + 1);
    }
  }

  /** The encoding of a code point (RFC 3629 section 3). */
  function Utf8Encode(cp: int): (r: string)
    requires 0 <= cp < 0x110000
    ensures 1 <= |r| <= 4 && IsByteString(r)
  {
    if cp < 0x80 then [cp as char]
    else if cp < 0x800 then [(0xC0 + cp / 64) as char, (0x80 + cp % 64) as char]
    else if cp < 0x10000 then
      [(0xE0 + cp / 4096) as char, (0x80 + (cp / 64) % 64) as char, (0x80 + cp % 64) as char]
    else
      [(0xF0 + cp / 262144) as char, (0x80 + (cp / 4096) % 64) as char,
       (0x80 + (cp / 64) % 64) as char, (0x80 + cp % 64) as char]
  }

  function Utf8EncodeAll(cps: seq<int>): string
    requires forall i :: 0 <= i < |cps| ==> 0 <= cps[i] < 0x110000
  {
    if cps == [] then [] else Utf8Encode(cps[0]) + Utf8EncodeAll(cps[1..])
  }

  /** One encoded character is accepted, and the scan then continues after it. */
  lemma {:induction false} EncodedCharacterAccepted(cp: int, rest: string)
    requires 0 <= cp < 0x110000
    ensures Utf8Valid(Utf8Encode(cp) + rest) <==> Utf8Valid(rest)
  {
    var e := Utf8Encode(cp);
    var s := e + rest;
    assert s[0] == e[0];
    assert ContinuationCount(ByteOf(e[0])) == |e| - 1;
    assert forall k :: 0 < k < |e| ==> s[k] == e[k] && IsContinuation(e[k]);
    Utf8ValidFromShift(e, rest, 0);
  }

  /** Every RFC 3629 encoding is accepted. */
  lemma {:induction false} EncodedTextAccepted(cps: seq<int>)
    requires forall i :: 0 <= i < |cps| ==> 0 <= cps[i] < 0x110000
    ensures Utf8Valid(Utf8EncodeAll(cps))
    decreases |cps|
  {
    if cps != [] {
      EncodedTextAccepted(cps[1..]);
      EncodedCharacterAccepted(cps[0], Utf8EncodeAll(cps[1..]));
    }
  }

  /**
   * Inputs RFC 3629 forbids but the scan accepts: the overlong C0 80 and the
   * encoded surrogate ED A0 80. A stray continuation byte, a truncated
   * sequence and the lead byte F8 are rejected.
   */
  lemma {:induction false} LooserThanRfc3629()
    ensures Utf8Valid([0xC0 as char, 0x80 as char])
    ensures Utf8Valid([0xED as char, 0xA0 as char, 0x80 as char])
    ensures !Utf8Valid([0x80 as char])
    ensures !Utf8Valid([0xC3 as char])
    ensures !Utf8Valid([0xF8 as char, 0x80 as char, 0x80 as char, 0x80 as char, 0x80 as char])
  {
    var overlong := [0xC0 as char, 0x80 as char];
    assert Utf8ValidFrom(overlong, 2);
    var surrogate := [0xED as char, 0xA0 as char, 0x80 as char];
    assert Utf8ValidFrom(surrogate, 3);
  }

  // ---------------------------------------------------------------------------
  // UTF-16 (RFC 2781 section 2.1)
  // ---------------------------------------------------------------------------

  type U16 = x: int | 0 <= x < 0x1_0000
  type U32 = x: int | 0 <= x < 0x1_0000_0000

  /**
   * `append_glyph_to_utf16be`: the vector with the UTF-16 units of `glyph`
   * appended. Values from U+10000 on become a surrogate pair; the casts to
   * 16 bits are explicit.
   */
  function AppendGlyphToUtf16be(glyph: U32, u16buf: seq<U16>): (r: seq<U16>)
    ensures |r| >= |u16buf| && r[..|u16buf|] == u16buf
    ensures glyph < 0x10000 ==> r == u16buf + [glyph]
    ensures glyph >= 0x10000 ==> |r| == |u16buf| + 2
  {
    if glyph < 0x10000 then u16buf + [glyph]
    else
      var reduced := glyph - 0x10000;
      u16buf + [(reduced / 1024 + 0xD800) % 0x10000, reduced % 1024 + 0xDC00]
  }

  /** A supplementary-plane code point becomes a high and a low surrogate that recombine to it. */
  lemma {:induction false} SurrogatePair(glyph: U32, u16buf: seq<U16>)
    requires 0x10000 <= glyph < 0x110000
    ensures var r := AppendGlyphToUtf16be(glyph, u16buf);
      var hi: int := r[|u16buf|];
      var lo: int := r[|u16buf| + 1];
      && 0xD800 <= hi <= 0xDBFF
      && 0xDC00 <= lo <= 0xDFFF
      && 0x10000 + (hi - 0xD800) * 1024 + (lo - 0xDC00) == glyph
  {
  }

  /** The UTF-16 units of a code point sequence. */
  function Utf16Units(cps: seq<U32>): (r: seq<U16>)
    ensures |r| >= |cps|
  {
    if cps == [] then []
    else AppendGlyphToUtf16be(cps[|cps| - 1], Utf16Units(cps[..|cps| - 1]))
  }

  lemma {:induction false} Utf16UnitsStep(cps: seq<U32>, i: nat)
    requires i < |cps|
    ensures Utf16Units(cps[..i + 1]) == Utf16Units(cps[..i]) + AppendGlyphToUtf16be(cps[i], [])
  {
    assert cps[..i + 1][..i] == cps[..i];
  }

  /** "%02X%02X" of the high and low byte of a unit. */
  function UnitHex(u: U16): (r: string)
    ensures |r| == 4
  {
    UpperHexByte(u / 256) + UpperHexByte(u % 256)
  }

  function UnitsHex(us: seq<U16>): (r: string)
    ensures |r| == 4 * |us|
  {
    if us == [] then [] else UnitsHex(us[..|us| - 1]) + UnitHex(us[|us| - 1])
  }

  lemma {:induction false} UnitsHexAppend(a: seq<U16>, b: seq<U16>)
    ensures UnitsHex(a + b) == UnitsHex(a) + UnitsHex(b)
    decreases |b|
  {
    if b == [] {
      assert a + b == a;
    } else {
      var init := b[..|b| - 1];
      var last := b[|b| - 1];
      SplitLast(a, b);
      UnitsHexAppend(a, init);
      UnitsHexSnoc(a + init, last);
      UnitsHexSnoc(init, last);
    }
  }

  lemma {:induction false} SplitLast<T>(a: seq<T>, b: seq<T>)
    requires b != []
    ensures b == b[..|b| - 1] + [b[|b| - 1]]
    ensures a + b == (a + b[..|b| - 1]) + [b[|b| - 1]]
  {
    assert b == b[..|b| - 1] + [b[|b| - 1]];
  }

  lemma {:induction false} UnitsHexSnoc(us: seq<U16>, u: U16)
    ensures UnitsHex(us + [u]) == UnitsHex(us) + UnitHex(u)
  {
    assert (us + [u])[..|us|] == us;
  }

  predicate AllHex(s: string)
  {
    forall i :: 0 <= i < |s| ==> IsHexDigit(s[i])
  }

  /** The value of four hexadecimal digits, most significant first. */
  function Hex4Value(t: string): int
    requires |t| == 4 && AllHex(t)
  {
    4096 * HexValue(t[0]) + 256 * HexValue(t[1]) + 16 * HexValue(t[2]) + HexValue(t[3])
  }

  /** Reads four hexadecimal digits at a time back as units. */
  function ReadUnits(s: string): seq<int>
    requires |s| % 4 == 0 && AllHex(s)
  {
    if s == [] then [] else ReadUnits(s[..|s| - 4]) + [Hex4Value(s[|s| - 4..])]
  }

  /** One unit's four digits read back as the unit. */
  lemma {:induction false} UnitHexValue(u: U16)
    ensures AllHex(UnitHex(u)) && Hex4Value(UnitHex(u)) == u
  {
    HexByteRoundTrip(u / 256);
    HexByteRoundTrip(u % 256);
  }

  lemma {:induction false} ReadUnitsSnoc(h: string, t: string)
    requires |h| % 4 == 0 && AllHex(h)
    requires |t| == 4 && AllHex(t)
    ensures AllHex(h + t)
    ensures ReadUnits(h + t) == ReadUnits(h) + [Hex4Value(t)]
  {
    assert (h + t)[..|h + t| - 4] == h;
    assert (h + t)[|h + t| - 4..] == t;
  }

  /** The hexadecimal form is read back as the same units. */
  lemma {:induction false} UnitsHexRoundTrip(us: seq<U16>)
    ensures AllHex(UnitsHex(us))
    ensures ReadUnits(UnitsHex(us)) == us
    decreases |us|
  {
    if us != [] {
      var init := us[..|us| - 1];
      var u := us[|us| - 1];
      UnitsHexRoundTrip(init);
      UnitHexValue(u);
      UnitsHexSnoc(init, u);
      assert us == init + [u];
      ReadUnitsSnoc(UnitsHex(init), UnitHex(u));
    }
  }

  /** The inner loop of `utf8_to_pdfutf16be`: "%02X%02X" per unit. */
  method AppendUnitsHex(encoded: string, u16buf: seq<U16>) returns (r: string)
    ensures r == encoded + UnitsHex(u16buf)
  {
    r := encoded;
    var j := 0;
    while j < |u16buf|
      invariant 0 <= j <= |u16buf|
      invariant r == encoded + UnitsHex(u16buf[..j])
    {
      var u := u16buf[j];
      r := r + UnitHex(u);
      assert u16buf[..j + 1] == u16buf[..j] + [u];
      UnitsHexSnoc(u16buf[..j], u);
      j := j + 1;
    }
    assert u16buf[..j] == u16buf;
  }

  /** One code point's worth of hexadecimal text extends the encoding of the prefix. */
  lemma {:induction false} Utf16HexStep(cps: seq<U32>, i: nat, head: string, before: string, after: string)
    requires i < |cps|
    requires before == head + UnitsHex(Utf16Units(cps[..i]))
    requires after == before + UnitsHex(AppendGlyphToUtf16be(cps[i], []))
    ensures after == head + UnitsHex(Utf16Units(cps[..i + 1]))
  {
    Utf16UnitsStep(cps, i);
    UnitsHexConcat(head, Utf16Units(cps[..i]), AppendGlyphToUtf16be(cps[i], []), before, after);
  }

  lemma {:induction false} UnitsHexConcat(head: string, x: seq<U16>, y: seq<U16>, before: string, after: string)
    requires before == head + UnitsHex(x)
    requires after == before + UnitsHex(y)
    ensures after == head + UnitsHex(x + y)
  {
    UnitsHexAppend(x, y);
    AppendedTwice(head, UnitsHex(x), UnitsHex(y), before, after);
  }

  /** Appending `a` then `b` appends `a + b`. */
  lemma {:induction false} AppendedTwice(head: string, a: string, b: string, before: string, after: string)
    requires before == head + a && after == before + b
    ensures after == head + (a + b)
  {
  }

  /**
   * `utf8_to_pdfutf16be`: each UTF-16 unit as four upper-case hexadecimal
   * digits, high byte first, optionally wrapped in "<FEFF" ... ">"
   * (ISO 32000-2 section 7.9.2.2.1). `cps` is the decoded input; the byte
   * order of the host is taken to be little-endian, as the source assumes.
   */
  method Utf8ToPdfUtf16be(cps: seq<U32>, addAdornments: bool) returns (encoded: string)
    ensures encoded == (if addAdornments then "<FEFF" else "") + UnitsHex(Utf16Units(cps))
                       + (if addAdornments then ">" else "")
  {
    var head := if addAdornments then "<FEFF" else "";
    encoded := head;
    var i := 0;
    assert cps[..i] == [];
    while i < |cps|
      invariant 0 <= i <= |cps|
      invariant encoded == head + UnitsHex(Utf16Units(cps[..i]))
    {
      var u16buf := AppendGlyphToUtf16be(cps[i], []);
      var next := AppendUnitsHex(encoded, u16buf);
      Utf16HexStep(cps, i, head, encoded, next);
      encoded := next;
      i := i + 1;
    }
    assert cps[..i] == cps;
    if addAdornments {
      encoded := encoded + ">";
    }
  }

  /** The adorned form is "<FEFF", four digits per unit, ">", and reads back as the units. */
  lemma {:induction false} AdornedUtf16Layout(cps: seq<U32>)
    ensures var e := "<FEFF" + UnitsHex(Utf16Units(cps)) + ">";
      && |e| == 6 + 4 * |Utf16Units(cps)|
      && AllHex(e[5..|e| - 1])
      && ReadUnits(e[5..|e| - 1]) == Utf16Units(cps)
  {
    var e := "<FEFF" + UnitsHex(Utf16Units(cps)) + ">";
    assert e[5..|e| - 1] == UnitsHex(Utf16Units(cps));
    UnitsHexRoundTrip(Utf16Units(cps));
  }

  // ---------------------------------------------------------------------------

  /** `is_ascii`: true iff no byte exceeds 127. */
  method IsAscii(text: string) returns (ok: bool)
    ensures ok <==> forall i :: 0 <= i < |text| ==> ByteOf(text[i]) <= 127
  {
    var i := 0;
    while i < |text|
      invariant 0 <= i <= |text|
      invariant forall j :: 0 <= j < i ==> ByteOf(text[j]) <= 127
    {
      if ByteOf(text[i]) > 127 {
        return false;
      }
      i := i + 1;
    }
    return true;
  }
}
