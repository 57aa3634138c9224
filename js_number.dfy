/**
 * The two JavaScript number conversions rating.js relies on: `parseInt` on the stored rating text and
 * `toString` on the clicked rating. Numbers are modelled as unbounded integers plus NaN, which is all a
 * rating can be; the lemmas show that `parseInt` reads back what `toString` writes.
 */
module JsNumber {

  /** A JavaScript number as the widget can hold one: an integer, or NaN. */
  datatype Number = Int(v: int) | NaN

  /** StrWhiteSpaceChar of ECMAScript (white space and line terminators), which `parseInt` skips. */
  predicate IsStrWhiteSpace(c: char) {
    || c == '\t' || c == '\U{000B}' || c == '\U{000C}' || c == ' ' || c == '\U{00A0}' || c == '\U{FEFF}'
    || c == '\n' || c == '\r' || c == '\U{2028}' || c == '\U{2029}'
    || c == '\U{1680}' || ('\U{2000}' <= c <= '\U{200A}') || c == '\U{202F}' || c == '\U{205F}' || c == '\U{3000}'
  }

  /** `s` without its leading white space. */
  function TrimStart(s: string): (r: string)
    ensures |r| <= |s| && r == s[|s| - |r|..]
    ensures forall k :: 0 <= k < |s| - |r| ==> IsStrWhiteSpace(s[k])
    ensures r == [] || !IsStrWhiteSpace(r[0])
  {
    if s != [] && IsStrWhiteSpace(s[0]) then TrimStart(s[1..]) else s
  }

  /** A digit of radix 10 or 16. */
  predicate IsRadixDigit(c: char, radix: nat) {
    ('0' <= c <= '9') || (radix == 16 && ('a' <= c <= 'f' || 'A' <= c <= 'F'))
  }

  function DigitValue(c: char): nat
    requires IsRadixDigit(c, 16)
  {
    if '0' <= c <= '9' then c as int - '0' as int
    else if 'a' <= c <= 'f' then c as int - 'a' as int + 10
    else c as int - 'A' as int + 10
  }

  /** The number of radix digits at the front of `s`. */
  function LeadingDigits(s: string, radix: nat): (n: nat)
    ensures n <= |s|
    ensures forall k :: 0 <= k < n ==> IsRadixDigit(s[k], radix)
    ensures n == |s| || !IsRadixDigit(s[n], radix)
  {
    if s != [] && IsRadixDigit(s[0], radix) then 1 + LeadingDigits(s[1..], radix) else 0
  }

  /** The value of a digit string, most significant digit first. */
  function DigitsValue(d: string, radix: nat): nat
    requires forall k :: 0 <= k < |d| ==> IsRadixDigit(d[k], radix)
  {
    if d == [] then 0
    else
      var last := d[|d| - 1];
      assert IsRadixDigit(last, radix);
      DigitsValue(d[..|d| - 1], radix) * radix + DigitValue(last)
  }

  /**
   * `parseInt(s)` with no radix: skip white space, take one optional sign, read hexadecimal after a
   * `0x` or `0X` prefix and decimal otherwise, as many digits as there are; NaN when there are none.
   */
  function ParseInt(s: string): Number {
    ParseTrimmed(TrimStart(s))
  }

  /** `parseInt` on text that starts with no white space: one optional sign. */
  function ParseTrimmed(t: string): Number {
    if t != [] && t[0] == '-' then Negate(ParseUnsigned(t[1..]))
    else if t != [] && t[0] == '+' then ParseUnsigned(t[1..])
    else ParseUnsigned(t)
  }

  function Negate(x: Number): Number {
    match x
    case Int(v) => Int(-v)
    case NaN => NaN
  }

  /** Hexadecimal after a `0x` or `0X` prefix, decimal otherwise. */
  function ParseUnsigned(u: string): Number {
    if |u| >= 2 && u[0] == '0' && (u[1] == 'x' || u[1] == 'X') then ParseDigits(u[2..], 16)
    else ParseDigits(u, 10)
  }

  /** The leading radix digits of `d`, or NaN when there are none. */
  function ParseDigits(d: string, radix: nat): Number {
    var n := LeadingDigits(d, radix);
    if n == 0 then NaN else Int(DigitsValue(d[..n], radix))
  }

  function DigitChar(d: nat): char
    requires d < 10
  {
    ('0' as int + d) as char
  }

  /**
   * `n.toString()` for a non-negative integer: its decimal digits, with no leading zero.
   * (JavaScript only switches to exponent notation from 10^21 on; a rating is at most 3.)
   */
  function DecimalString(n: nat): (r: string)
    ensures |r| >= 1
    ensures forall k :: 0 <= k < |r| ==> IsRadixDigit(r[k], 10)
    ensures (r[0] == '0') == (n == 0)
    decreases n
  {
    if n < 10 then [DigitChar(n)] else DecimalString(n / 10) + [DigitChar(n % 10)]
  }

  lemma {:induction false} DecimalStringValue(n: nat)
    ensures DigitsValue(DecimalString(n), 10) == n
    decreases n
  {
    var r := DecimalString(n);
    if n >= 10 {
      DecimalStringValue(n / 10);
      assert r[..|r| - 1] == DecimalString(n / 10);
      assert DigitValue(r[|r| - 1]) == n % 10;
    } else {
      assert r[..0] == [];
    }
  }

  lemma {:induction false} LeadingDigitsExact(s: string, radix: nat, n: nat)
    requires n <= |s|
    requires forall k :: 0 <= k < n ==> IsRadixDigit(s[k], radix)
    requires n == |s| || !IsRadixDigit(s[n], radix)
    ensures LeadingDigits(s, radix) == n
  {
    if n > 0 {
      LeadingDigitsExact(s[1..], radix, n - 1);
    }
  }

  /** The decimal text followed by a non-digit has no white space and no sign in front. */
  lemma DecimalUntrimmed(n: nat, rest: string)
    ensures TrimStart(DecimalString(n) + rest) == DecimalString(n) + rest
  {
    var s := DecimalString(n) + rest;
    assert s[0] == DecimalString(n)[0];
  }

  /**
   * `parseInt` reads back a decimal number written by `toString`, whatever non-digit text follows it,
   * except that `0` followed by `x` or `X` starts a hexadecimal number instead.
   */
  lemma ParseIntOfDecimal(n: nat, rest: string)
    requires rest == [] || !IsRadixDigit(rest[0], 10)
    requires n == 0 && rest != [] ==> rest[0] != 'x' && rest[0] != 'X'
    ensures ParseInt(DecimalString(n) + rest) == Int(n)
  {
    var d := DecimalString(n);
    var s := d + rest;
    DecimalUntrimmed(n, rest);
    assert s[0] == d[0];
    assert ParseTrimmed(s) == ParseUnsigned(s);
    assert n == 0 ==> |d| == 1;
    assert ParseUnsigned(s) == ParseDigits(s, 10);
    LeadingDigitsExact(s, 10, |d|);
    assert s[..|d|] == d;
    DecimalStringValue(n);
  }

  /** The round trip of the stored rating: `parseInt(n.toString()) == n`. */
  lemma ParseIntRoundTrip(n: nat)
    ensures ParseInt(DecimalString(n)) == Int(n)
  {
    ParseIntOfDecimal(n, []);
    assert DecimalString(n) + [] == DecimalString(n);
  }

  /** Leading white space does not change what `parseInt` reads. */
  lemma {:induction false} ParseIntSkipsWhiteSpace(w: string, s: string)
    requires forall k :: 0 <= k < |w| ==> IsStrWhiteSpace(w[k])
    ensures ParseInt(w + s) == ParseInt(s)
  {
    TrimStartSkips(w, s);
  }

  lemma {:induction false} TrimStartSkips(w: string, s: string)
    requires forall k :: 0 <= k < |w| ==> IsStrWhiteSpace(w[k])
    ensures TrimStart(w + s) == TrimStart(s)
    decreases |w|
  {
    if w != [] {
      assert (w + s)[1..] == w[1..] + s;
      TrimStartSkips(w[1..], s);
    } else {
      assert w + s == s;
    }
  }

  /** Text that starts with anything but white space, a sign or a digit reads as NaN. */
  lemma ParseIntNaN(s: string)
    requires s == [] || !(IsStrWhiteSpace(s[0]) || s[0] == '-' || s[0] == '+' || IsRadixDigit(s[0], 10))
    ensures ParseInt(s) == NaN
  {
    assert TrimStart(s) == s;
    assert ParseInt(s) == ParseDigits(s, 10);
  }

  /** A sign written before the decimal text of a number, after any white space, is read as that sign. */
  lemma ParseIntSignedDecimal(w: string, n: nat)
    requires forall k :: 0 <= k < |w| ==> IsStrWhiteSpace(w[k])
    ensures ParseInt(w + "+" + DecimalString(n)) == Int(n)
    ensures ParseInt(w + "-" + DecimalString(n)) == Int(-(n as int))
  {
    UnsignedDecimal(n);
    SignedText(w, '+', DecimalString(n));
    SignedText(w, '-', DecimalString(n));
  }

  /** Decimal text read after the sign: the unsigned part of `parseInt` reads back `n.toString()`. */
  lemma UnsignedDecimal(n: nat)
    ensures ParseUnsigned(DecimalString(n)) == Int(n)
  {
    var d := DecimalString(n);
    ParseIntRoundTrip(n);
    DecimalUntrimmed(n, []);
    assert d + [] == d;
    assert d[0] != '-' && d[0] != '+';
    assert ParseInt(d) == ParseTrimmed(d);
  }

  /** Decimal text with white space and at most a `+` in front reads as its number. */
  lemma ParseIntPaddedDecimal(w: string, sign: string, n: nat)
    requires forall k :: 0 <= k < |w| ==> IsStrWhiteSpace(w[k])
    requires sign == "" || sign == "+"
    ensures ParseInt(w + sign + DecimalString(n)) == Int(n)
  {
    if sign == "" {
      assert w + sign == w;
      ParseIntSkipsWhiteSpace(w, DecimalString(n));
      ParseIntRoundTrip(n);
    } else {
      ParseIntSignedDecimal(w, n);
    }
  }

  /** A sign followed by no decimal digit, and no `0x` prefix, reads as NaN. */
  lemma ParseIntSignWithoutDigit(w: string, sign: char, rest: string)
    requires forall k :: 0 <= k < |w| ==> IsStrWhiteSpace(w[k])
    requires sign == '+' || sign == '-'
    requires rest == [] || !IsRadixDigit(rest[0], 10)
    ensures ParseInt(w + [sign] + rest) == NaN
  {
    assert ParseUnsigned(rest) == NaN;
    SignedText(w, sign, rest);
  }

  /** A `0x` or `0X` prefix followed by no hexadecimal digit reads as NaN, with or without a sign. */
  lemma ParseIntHexWithoutDigit(w: string, sign: string, x: char, rest: string)
    requires forall k :: 0 <= k < |w| ==> IsStrWhiteSpace(w[k])
    requires sign == "" || sign == "+" || sign == "-"
    requires x == 'x' || x == 'X'
    requires rest == [] || !IsRadixDigit(rest[0], 16)
    ensures ParseInt(w + sign + ['0', x] + rest) == NaN
  {
    var u := ['0', x] + rest;
    HexPrefixWithoutDigit(x, rest);
    if sign == "" {
      assert w + sign + ['0', x] + rest == w + u;
      ParseIntSkipsWhiteSpace(w, u);
    } else {
      assert w + sign + ['0', x] + rest == w + [sign[0]] + u;
      SignedText(w, sign[0], u);
    }
  }

  lemma HexPrefixWithoutDigit(x: char, rest: string)
    requires x == 'x' || x == 'X'
    requires rest == [] || !IsRadixDigit(rest[0], 16)
    ensures ParseUnsigned(['0', x] + rest) == NaN && ParseInt(['0', x] + rest) == NaN
  {
    var u := ['0', x] + rest;
    assert u[2..] == rest;
    LeadingDigitsExact(rest, 16, 0);
    assert ParseUnsigned(u) == ParseDigits(rest, 16);
    DigitFirst(u);
  }

  /** Text that starts with a decimal digit has no white space or sign for `parseInt` to skip. */
  lemma DigitFirst(t: string)
    requires t != [] && '0' <= t[0] <= '9'
    ensures ParseInt(t) == ParseUnsigned(t)
  {
    assert TrimStart(t) == t;
  }

  /** After white space, a sign and then the text `u`: `parseInt` reads `u`, negated for `-`. */
  lemma SignedText(w: string, sign: char, u: string)
    requires forall k :: 0 <= k < |w| ==> IsStrWhiteSpace(w[k])
    requires sign == '+' || sign == '-'
    ensures ParseInt(w + [sign] + u) == if sign == '-' then Negate(ParseUnsigned(u)) else ParseUnsigned(u)
  {
    var t := [sign] + u;
    assert w + [sign] + u == w + t;
    ParseIntSkipsWhiteSpace(w, t);
    SignFirst(sign, u);
  }

  lemma SignFirst(sign: char, u: string)
    requires sign == '+' || sign == '-'
    ensures ParseInt([sign] + u) == if sign == '-' then Negate(ParseUnsigned(u)) else ParseUnsigned(u)
  {
    var t := [sign] + u;
    assert TrimStart(t) == t;
    assert t[1..] == u;
  }
}
