/** The integer text the codec writes (snprintf with PRId64 / PRIu64) and
    the conversion the reader applies to a captured number (strtoll /
    strtoull with base 0), with the round trip between them. */
module Decimal {
  import opened JsonTypes

  const Int64Min: int := -0x8000_0000_0000_0000
  const Int64Max: int := 0x7FFF_FFFF_FFFF_FFFF
  const UInt64Max: int := 0xFFFF_FFFF_FFFF_FFFF
  /** 2^64: unsigned arithmetic wraps modulo this. */
  const UInt64Modulus: int := 0x1_0000_0000_0000_0000

  type Int64 = x: int | -0x8000_0000_0000_0000 <= x <= 0x7FFF_FFFF_FFFF_FFFF
  type UInt64 = x: int | 0 <= x <= 0xFFFF_FFFF_FFFF_FFFF

  function DigitChar(d: nat): (c: char)
    requires d < 10
    ensures IsDigit(c) && DigitValue(c) == d
  {
    ('0' as int + d) as char
  }

  function DigitValue(c: char): nat
    requires IsDigit(c)
  {
    c as int - '0' as int
  }

  predicate AllDigits(s: seq<char>) {
    forall i :: 0 <= i < |s| ==> IsDigit(s[i])
  }

  /** Plain decimal text of a natural number, most significant digit first:
      what snprintf writes for "%" PRIu64. */
  function NatText(n: nat): (r: string)
    decreases n
  {
    if n < 10 then [DigitChar(n)] else NatText(n / 10) + [DigitChar(n % 10)]
  }

  /** What snprintf writes for "%" PRId64: a minus sign only for negatives. */
  function IntText(v: int): (r: string) {
    if v < 0 then ['-'] + NatText(-v) else NatText(v)
  }

  /** Value of a digit string read in the given base. */
  function DigitsValue(s: seq<char>, base: nat): nat
    requires AllDigits(s)
  {
    if s == [] then 0 else DigitsValue(s[..|s| - 1], base) * base + DigitValue(s[|s| - 1])
  }

  /** The longest prefix of s whose bytes are digits below base: the part
      the strto* functions convert before they stop. */
  function DigitPrefix(s: seq<char>, base: nat): (r: seq<char>)
    ensures r <= s && AllDigits(r)
    ensures forall i :: 0 <= i < |r| ==> DigitValue(r[i]) < base
    ensures |r| < |s| ==> !(IsDigit(s[|r|]) && DigitValue(s[|r|]) < base)
  {
    if s != [] && IsDigit(s[0]) && DigitValue(s[0]) < base then [s[0]] + DigitPrefix(s[1..], base) else []
  }

  /** The bytes the number scanner can capture: it starts at a digit or a
      minus sign, and only digits, signs, dots, blanks and colons follow. */
  predicate IsCapture(s: seq<char>) {
    |s| > 0 && (IsDigit(s[0]) || s[0] == '-') &&
    forall i :: 0 <= i < |s| ==> IsDigit(s[i]) || s[i] == '-' || s[i] == '.' || s[i] == ':' || IsBlank(s[i])
  }

  /** Magnitude read with base 0 once the sign is consumed: a leading 0
      selects octal, anything else decimal ("0x" cannot occur in a capture). */
  function Magnitude(body: seq<char>): nat {
    if |body| > 0 && body[0] == '0' then DigitsValue(DigitPrefix(body, 8), 8)
    else DigitsValue(DigitPrefix(body, 10), 10)
  }

  predicate Negative(s: seq<char>) {
    |s| > 0 && s[0] == '-'
  }

  function Body(s: seq<char>): seq<char> {
    if Negative(s) then s[1..] else s
  }

  /** strtoull(text, NULL, 0): an out-of-range magnitude gives ULLONG_MAX,
      a minus sign negates modulo 2^64. */
  function StrToU64(text: seq<char>): (r: UInt64)
    requires IsCapture(text)
  {
    var m := Magnitude(Body(text));
    if m > UInt64Max then UInt64Max
    else if Negative(text) then (UInt64Modulus - m) % UInt64Modulus
    else m
  }

  /** strtoll(text, NULL, 0): out-of-range values clamp to LLONG_MIN or
      LLONG_MAX. */
  function StrToI64(text: seq<char>): (r: Int64)
    requires IsCapture(text)
  {
    var m := Magnitude(Body(text));
    if Negative(text) then (if m > -Int64Min then Int64Min else -(m as int))
    else if m > Int64Max then Int64Max else m
  }

  /** NatText writes digits only, with no leading zero, and reads back as n. */
  lemma {:induction false} NatTextDigits(n: nat)
    ensures |NatText(n)| > 0 && AllDigits(NatText(n))
    ensures NatText(n)[0] == '0' <==> n == 0
    ensures DigitsValue(NatText(n), 10) == n
    decreases n
  {
    if n >= 10 {
      NatTextDigits(n / 10);
      var r := NatText(n);
      assert r == NatText(n / 10) + [DigitChar(n % 10)];
      assert r[..|r| - 1] == NatText(n / 10);
      assert r[0] == NatText(n / 10)[0];
    }
  }

  lemma {:induction false} DigitPrefixOfDigits(s: seq<char>)
    requires AllDigits(s)
    ensures DigitPrefix(s, 10) == s
  {
    if s != [] {
      DigitPrefixOfDigits(s[1..]);
      assert [s[0]] + s[1..] == s;
    }
  }

  /** Plain decimal text of n is converted back to n. */
  lemma NatMagnitude(n: nat)
    ensures Magnitude(NatText(n)) == n
  {
    NatTextDigits(n);
    var r := NatText(n);
    if n == 0 {
      assert r == ['0'];
      assert DigitPrefix(r, 8) == ['0'];
      assert DigitsValue(['0'], 8) == DigitsValue([], 8) * 8 + 0;
    } else {
      DigitPrefixOfDigits(r);
    }
  }

  lemma IsCaptureNatText(n: nat)
    ensures IsCapture(NatText(n)) && IsCapture(['-'] + NatText(n))
  {
    NatTextDigits(n);
    var r := ['-'] + NatText(n);
    forall i | 0 <= i < |r| ensures IsDigit(r[i]) || r[i] == '-' {
      if i > 0 { assert r[i] == NatText(n)[i - 1]; }
    }
  }

  /** Writing an unsigned value and reading it back with strtoull is the
      identity. */
  lemma UInt64RoundTrip(n: UInt64)
    ensures IsCapture(NatText(n)) && StrToU64(NatText(n)) == n
  {
    IsCaptureNatText(n);
    NatTextDigits(n);
    NatMagnitude(n);
  }

  /** Writing a signed value and reading it back with strtoll is the
      identity. */
  lemma Int64RoundTrip(v: Int64)
    ensures IsCapture(IntText(v)) && StrToI64(IntText(v)) == v
  {
    IsCaptureNatText(if v < 0 then -(v as int) else v as int);
    if v < 0 {
      var m: nat := -(v as int);
      NatTextDigits(m);
      NatMagnitude(m);
      assert Body(IntText(v)) == NatText(m);
    } else {
      NatTextDigits(v);
      NatMagnitude(v);
    }
  }
}
