/**
 * The pieces of the JavaScript runtime that the scraper in src/index.ts leans
 * on: the `null`-or-number values it stores in a match record, the character
 * classes of ECMA-262 that its regular expressions and `parseInt` use,
 * `parseInt` itself (ECMA-262 section 19.2.5) and the decimal rendering of an
 * integer that a template string `${n}` performs (Number::toString).
 */
module JsRuntime {

  /** `None` stands for JavaScript's `null`. */
  datatype Option<+T> = None | Some(value: T)

  /** A JavaScript number as this program can produce one: `NaN` or an integer. */
  datatype JsInt = NaN | Int(value: int)

  /** LineTerminator (ECMA-262 section 12.3): the characters `.` never matches. */
  predicate IsLineTerminator(c: char) {
    c == '\n' || c == '\r' || c == '\U{2028}' || c == '\U{2029}'
  }

  /**
   * WhiteSpace (ECMA-262 section 12.2): TAB, VT, FF, ZWNBSP and every space
   * separator of Unicode category Zs, among them the ideographic space U+3000.
   */
  predicate IsWhiteSpace(c: char) {
    || c == '\t' || c == '\U{000B}' || c == '\U{000C}' || c == '\U{FEFF}'
    || c == ' ' || c == '\U{00A0}' || c == '\U{1680}'
    || ('\U{2000}' <= c <= '\U{200A}')
    || c == '\U{202F}' || c == '\U{205F}' || c == '\U{3000}'
  }

  /** StrWhiteSpaceChar: what `parseInt` skips before the number. */
  predicate IsStrWhiteSpace(c: char) {
    IsWhiteSpace(c) || IsLineTerminator(c)
  }

  /** `\d` of a regular expression without the `u` flag: ASCII digits only. */
  predicate IsDecimalDigit(c: char) {
    '0' <= c <= '9'
  }

  /**
   * The value `parseInt` gives a character as a digit: 0-9 for the decimal
   * digits, 10-35 for the Latin letters of either case, 36 for anything else.
   */
  function DigitValue(c: char): (d: nat)
    ensures d <= 36
    ensures IsDecimalDigit(c) <==> d < 10
  {
    if '0' <= c <= '9' then c as int - '0' as int
    else if 'a' <= c <= 'z' then c as int - 'a' as int + 10
    else if 'A' <= c <= 'Z' then c as int - 'A' as int + 10
    else 36
  }

  /** The two radices `parseInt` without a radix argument reads in. */
  datatype Radix = Decimal | Hexadecimal
  {
    function Base(): nat {
      if this == Decimal then 10 else 16
    }
  }

  predicate IsRadixDigit(c: char, radix: Radix) {
    DigitValue(c) < radix.Base()
  }

  /** The input with its leading StrWhiteSpace removed (TrimString, start). */
  function TrimStart(s: string): string
  {
    if |s| > 0 && IsStrWhiteSpace(s[0]) then TrimStart(s[1..]) else s
  }

  /** What is left after trimming is a suffix of the input that starts with no white space. */
  lemma {:induction false} TrimStartIsSuffix(s: string)
    ensures |TrimStart(s)| <= |s| && TrimStart(s) == s[|s| - |TrimStart(s)|..]
    ensures TrimStart(s) == [] || !IsStrWhiteSpace(TrimStart(s)[0])
  {
    if |s| > 0 && IsStrWhiteSpace(s[0]) {
      TrimStartIsSuffix(s[1..]);
      assert s[1..][|s| - 1 - |TrimStart(s)|..] == s[|s| - |TrimStart(s)|..];
    }
  }

  /** The longest prefix of `s` made of digits of the given radix. */
  function DigitPrefix(s: string, radix: Radix): (z: string)
    ensures |z| <= |s| && z == s[..|z|]
    ensures forall k :: 0 <= k < |z| ==> IsRadixDigit(z[k], radix)
    ensures |z| == |s| || !IsRadixDigit(s[|z|], radix)
  {
    if |s| > 0 && IsRadixDigit(s[0], radix) then [s[0]] + DigitPrefix(s[1..], radix) else []
  }

  /** The number that a string of radix digits denotes, most significant first. */
  function DigitsValue(z: string, radix: Radix): nat
  {
    if z == [] then 0
    else
      var high := DigitsValue(z[..|z| - 1], radix);
      (if radix == Decimal then high * 10 else high * 16) + DigitValue(z[|z| - 1])
  }

  /**
   * `parseInt(s)` with no radix argument: skip leading white space, take an
   * optional sign, switch to radix 16 after a `0x`/`0X` prefix, then read the
   * longest run of digits; no digits at all gives `NaN`.
   */
  function ParseInt(s: string): JsInt
  {
    ParseTrimmed(TrimStart(s))
  }

  /** Steps 5 to 16 of `parseInt`, once the leading white space is gone. */
  function ParseTrimmed(t: string): JsInt
  {
    var negative := |t| > 0 && t[0] == '-';
    var u := if |t| > 0 && (t[0] == '+' || t[0] == '-') then t[1..] else t;
    if |u| >= 2 && u[0] == '0' && (u[1] == 'x' || u[1] == 'X') then ReadDigits(u[2..], Hexadecimal, negative)
    else ReadDigits(u, Decimal, negative)
  }

  /** The signed value of the longest run of radix digits at the start of `u`, or `NaN`. */
  function ReadDigits(u: string, radix: Radix, negative: bool): JsInt
  {
    var z := DigitPrefix(u, radix);
    if z == [] then NaN
    else Int(if negative then -(DigitsValue(z, radix) as int) else DigitsValue(z, radix))
  }

  /** The decimal digits of a natural number, without leading zeros. */
  function NaturalToDecimal(n: nat): (d: string)
    ensures |d| > 0
    ensures forall k :: 0 <= k < |d| ==> IsDecimalDigit(d[k])
    ensures d[0] == '0' ==> n == 0 && |d| == 1
    ensures DigitsValue(d, Decimal) == n
  {
    var last := ['0' + (n % 10) as char];
    if n < 10 then last
    else
      var d := NaturalToDecimal(n / 10) + last;
      assert d[..|d| - 1] == NaturalToDecimal(n / 10);
      d
  }

  /** `${n}` for an integer n (Number::toString, radix 10). */
  function NumberToString(n: int): (s: string)
    ensures |s| > 0 && (s[0] == '-' || IsDecimalDigit(s[0]))
    ensures forall k :: 0 < k < |s| ==> IsDecimalDigit(s[k])
  {
    if n < 0 then "-" + NaturalToDecimal(-n) else NaturalToDecimal(n)
  }

  /** A string of decimal digits is its own longest radix-10 digit prefix. */
  lemma DigitPrefixOfDecimal(d: string)
    requires forall k :: 0 <= k < |d| ==> IsDecimalDigit(d[k])
    ensures DigitPrefix(d, Decimal) == d
  {
    var z := DigitPrefix(d, Decimal);
  }

  /** A nonempty string of decimal digits is read in full, in radix 10. */
  lemma ReadDigitsOfDecimal(d: string, negative: bool)
    requires |d| > 0 && forall k :: 0 <= k < |d| ==> IsDecimalDigit(d[k])
    ensures ReadDigits(d, Decimal, negative)
         == Int(if negative then -(DigitsValue(d, Decimal) as int) else DigitsValue(d, Decimal))
  {
    DigitPrefixOfDecimal(d);
  }

  /** `parseInt` inverts the decimal rendering of every integer. */
  lemma ParseIntOfNumberToString(n: int)
    ensures ParseInt(NumberToString(n)) == Int(n)
  {
    var s := NumberToString(n);
    var d := NaturalToDecimal(if n < 0 then -n else n);
    assert !IsStrWhiteSpace(s[0]);
    assert TrimStart(s) == s;
    if n < 0 {
      assert s[1..] == d;
      assert ParseTrimmed(s) == ReadDigits(d, Decimal, true);
      ReadDigitsOfDecimal(d, true);
    } else {
      assert ParseTrimmed(s) == ReadDigits(d, Decimal, false);
      ReadDigitsOfDecimal(d, false);
    }
  }

  /** Removing leading white space does not change what `parseInt` reads. */
  lemma {:induction false} TrimStartSkipsWhiteSpace(w: string, s: string)
    requires forall k :: 0 <= k < |w| ==> IsStrWhiteSpace(w[k])
    ensures TrimStart(w + s) == TrimStart(s)
  {
    if w != [] {
      assert (w + s)[1..] == w[1..] + s;
      TrimStartSkipsWhiteSpace(w[1..], s);
    } else {
      assert w + s == s;
    }
  }

  /** `parseInt` ignores leading white space, the full-width space U+3000 included. */
  lemma ParseIntIgnoresLeadingWhiteSpace(w: string, s: string)
    requires forall k :: 0 <= k < |w| ==> IsStrWhiteSpace(w[k])
    ensures ParseInt(w + s) == ParseInt(s)
  {
    TrimStartSkipsWhiteSpace(w, s);
  }

  /**
   * A run of decimal digits, not a hexadecimal prefix, at the start of `s`
   * and followed by no further digit is read as that decimal number.
   */
  lemma ParseIntOfDecimalPrefix(s: string, len: nat)
    requires 0 < len <= |s|
    requires forall k :: 0 <= k < len ==> IsDecimalDigit(s[k])
    requires len == |s| || !IsDecimalDigit(s[len])
    requires !(|s| >= 2 && s[0] == '0' && (s[1] == 'x' || s[1] == 'X'))
    ensures ParseInt(s) == Int(DigitsValue(s[..len], Decimal))
  {
    assert !IsStrWhiteSpace(s[0]);
    assert TrimStart(s) == s;
    assert s[0] != '+' && s[0] != '-';
    var z := DigitPrefix(s, Decimal);
    assert |z| == len;
  }
}
