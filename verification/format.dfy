// Decimal rendering used wherever the source formats numbers with printf-style
// conversions ("%d", "%i", "%u", "%zd", "%06d", "%010d" and "%f").
//
// Integers are rendered exactly. Floating-point "%f" output is modelled on
// reals: the value is rounded to the nearest multiple of 0.000001, a tie going
// to the even last digit, as a correctly rounding printf does in the default
// rounding mode for a value the double holds exactly.

module Format {

  predicate IsDigit(c: char) { '0' <= c <= '9' }

  predicate AllDigits(s: string) { forall i :: 0 <= i < |s| ==> IsDigit(s[i]) }

  function DigitChar(d: int): (c: char)
    requires 0 <= d < 10
    ensures IsDigit(c) && c as int - '0' as int == d
  {
    ('0' as int + d) as char
  }

  function DigitValue(c: char): int
    requires IsDigit(c)
  {
    c as int - '0' as int
  }

  /** "%d" of a non-negative number: the shortest decimal text, "0" for zero. */
  function NatText(n: nat): (r: string)
    ensures 0 < |r| && AllDigits(r)
    ensures |r| > 1 ==> r[0] != '0'
    ensures n < 10 <==> |r| == 1
  {
    if n < 10 then [DigitChar(n)] else NatText(n / 10) + [DigitChar(n % 10)]
  }

  /** Reads a string of decimal digits back as a number. */
  function ParseDigits(s: string): nat
    requires AllDigits(s)
  {
    if s == [] then 0 else 10 * ParseDigits(s[..|s| - 1]) + DigitValue(s[|s| - 1])
  }

  /** The decimal rendering is read back as the same number. */
  lemma {:induction false} NatTextRoundTrip(n: nat)
    ensures ParseDigits(NatText(n)) == n
  {
    if n >= 10 {
      var r := NatText(n);
      assert r[..|r| - 1] == NatText(n / 10);
      NatTextRoundTrip(n / 10);
    }
  }

  /** Distinct numbers are rendered as distinct texts. */
  lemma {:induction false} NatTextInjective(m: nat, n: nat)
    requires NatText(m) == NatText(n)
    ensures m == n
  {
    NatTextRoundTrip(m);
    NatTextRoundTrip(n);
  }

  /** "%d" / "%i" of a signed number. */
  function IntText(i: int): (r: string)
    ensures 0 < |r|
    ensures i < 0 <==> r[0] == '-'
    ensures i >= 0 ==> r == NatText(i)
  {
    if i < 0 then "-" + NatText(-i) else NatText(i)
  }

  function Zeros(k: nat): (r: string)
    ensures |r| == k && AllDigits(r)
    ensures forall j :: 0 <= j < k ==> r[j] == '0'
  {
    if k == 0 then [] else Zeros(k - 1) + "0"
  }

  /** "%0<width>d" of a non-negative number: left-padded with '0' up to `width`. */
  function ZeroPadded(n: nat, width: nat): (r: string)
    ensures AllDigits(r)
    ensures |r| == if |NatText(n)| >= width then |NatText(n)| else width
  {
    var t := NatText(n);
    if |t| >= width then t else Zeros(width - |t|) + t
  }

  /** Leading zeros do not change the value a digit string denotes. */
  lemma {:induction false} ParseDigitsLeadingZeros(k: nat, s: string)
    requires AllDigits(s)
    ensures ParseDigits(Zeros(k) + s) == ParseDigits(s)
    decreases |s|
  {
    if s == [] {
      ZerosParseToZero(k);
      assert Zeros(k) + s == Zeros(k);
    } else {
      var z := Zeros(k) + s;
      assert z[..|z| - 1] == Zeros(k) + s[..|s| - 1];
      ParseDigitsLeadingZeros(k, s[..|s| - 1]);
    }
  }

  lemma {:induction false} ZerosParseToZero(k: nat)
    ensures ParseDigits(Zeros(k)) == 0
  {
    if k > 0 {
      assert Zeros(k)[..k - 1] == Zeros(k - 1);
      ZerosParseToZero(k - 1);
    }
  }

  /** A zero-padded rendering is read back as the same number. */
  lemma {:induction false} ZeroPaddedRoundTrip(n: nat, width: nat)
    ensures ParseDigits(ZeroPadded(n, width)) == n
  {
    NatTextRoundTrip(n);
    if |NatText(n)| < width {
      ParseDigitsLeadingZeros(width - |NatText(n)|, NatText(n));
    }
  }

  predicate IsHexDigit(c: char)
  {
    '0' <= c <= '9' || 'a' <= c <= 'f' || 'A' <= c <= 'F'
  }

  /** The value of a hexadecimal digit of either case. */
  function HexValue(c: char): (v: int)
    requires IsHexDigit(c)
    ensures 0 <= v < 16
  {
    if '0' <= c <= '9' then c as int - '0' as int
    else if 'a' <= c <= 'f' then c as int - 'a' as int + 10
    else c as int - 'A' as int + 10
  }

  /** "%x" digit. */
  function LowerHexDigit(d: int): (c: char)
    requires 0 <= d < 16
    ensures IsHexDigit(c) && HexValue(c) == d
    ensures !('A' <= c <= 'Z')
  {
    if d < 10 then ('0' as int + d) as char else ('a' as int + d - 10) as char
  }

  /** "%X" digit: the "%x" digit, a letter turned upper-case. */
  function UpperHexDigit(d: int): (c: char)
    requires 0 <= d < 16
    ensures IsHexDigit(c) && HexValue(c) == d
    ensures !('a' <= c <= 'z')
  {
    var lower := LowerHexDigit(d);
    if d < 10 then lower else (lower as int - 32) as char
  }

  /** "%02x" of a byte. */
  function LowerHexByte(b: int): (r: string)
    requires 0 <= b < 256
    ensures |r| == 2
  {
    [LowerHexDigit(b / 16), LowerHexDigit(b % 16)]
  }

  /** "%02X" of a byte. */
  function UpperHexByte(b: int): (r: string)
    requires 0 <= b < 256
    ensures |r| == 2
  {
    [UpperHexDigit(b / 16), UpperHexDigit(b % 16)]
  }

  /** Both renderings of a byte are two hexadecimal digits that read back as the byte. */
  lemma {:induction false} HexByteRoundTrip(b: int)
    requires 0 <= b < 256
    ensures var r := LowerHexByte(b);
      IsHexDigit(r[0]) && IsHexDigit(r[1]) && 16 * HexValue(r[0]) + HexValue(r[1]) == b
    ensures var r := UpperHexByte(b);
      IsHexDigit(r[0]) && IsHexDigit(r[1]) && 16 * HexValue(r[0]) + HexValue(r[1]) == b
  {
  }

  /** Rounds a non-negative real to the nearest integer, a tie to the even one. */
  function RoundHalfEven(x: real): (r: nat)
    requires x >= 0.0
    ensures r as real - 0.5 <= x <= r as real + 0.5
    ensures (x == r as real - 0.5 || x == r as real + 0.5) ==> r % 2 == 0
  {
    var f := x.Floor;
    var frac := x - f as real;
    if frac < 0.5 then f
    else if frac > 0.5 then f + 1
    else if f % 2 == 0 then f
    else f + 1
  }

  /** "%f": six decimals, a leading '-' for negative values. */
  function RealText(x: real): (r: string)
    ensures 0 < |r|
  {
    var m := if x < 0.0 then -x else x;
    var micro := RoundHalfEven(m * 1000000.0);
    var body := NatText(micro / 1000000) + "." + ZeroPadded(micro % 1000000, 6);
    if x < 0.0 then "-" + body else body
  }

  /** A tie at the sixth decimal goes to the even digit: 2^-7 is written "0.007812". */
  lemma TieToEven()
    ensures RealText(0.0078125) == "0.007812"
  {
    assert 0.0078125 * 1000000.0 == 7812.5;
    assert (7812.5).Floor == 7812;
    var micro := RoundHalfEven(7812.5);
    assert micro == 7812;
    assert micro / 1000000 == 0 && micro % 1000000 == 7812;
    DigitsOf7812();
    assert ZeroPadded(7812, 6) == "00" + "7812";
  }

  lemma DigitsOf7812()
    ensures NatText(7812) == "7812"
  {
    assert 7812 / 10 == 781 && 7812 % 10 == 2;
    assert 781 / 10 == 78 && 781 % 10 == 1;
    assert 78 / 10 == 7 && 78 % 10 == 8;
    assert NatText(7) == "7";
    assert NatText(78) == "78";
    assert NatText(781) == "781";
  }
}
