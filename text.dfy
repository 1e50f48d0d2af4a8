/** The string conventions the two programs rely on: JavaScript's
    `String.prototype.trim`, the whitespace Python's `int()` strips, and
    decimal digit strings (JavaScript's `${n}` and Python's `str(n)` / `int(s)`). */
module Text {
  import opened Options

  /** The code points JavaScript's `trim` removes: WhiteSpace and LineTerminator. */
  predicate IsJsWhitespace(c: char)
  {
    c == '\t' || c == '\n' || c == '\U{000B}' || c == '\U{000C}' || c == '\r' || c == ' '
    || c == '\U{00A0}' || c == '\U{1680}' || ('\U{2000}' <= c <= '\U{200A}')
    || c == '\U{2028}' || c == '\U{2029}' || c == '\U{202F}' || c == '\U{205F}'
    || c == '\U{3000}' || c == '\U{FEFF}'
  }

  /** The characters `int()` strips around its argument: the ASCII space,
      tab, line feed, vertical tab, form feed and carriage return, and the
      non-ASCII characters `str.isspace` accepts, which CPython turns into
      spaces first. The ASCII separators U+001C to U+001F are not stripped,
      although `str.isspace` accepts them. */
  predicate IsIntWhitespace(c: char)
  {
    ('\t' <= c <= '\r') || c == ' '
    || c == '\U{0085}' || c == '\U{00A0}' || c == '\U{1680}' || ('\U{2000}' <= c <= '\U{200A}')
    || c == '\U{2028}' || c == '\U{2029}' || c == '\U{202F}' || c == '\U{205F}' || c == '\U{3000}'
  }

  /** The number of leading characters that satisfy `ws`. */
  function LeadingCount(s: string, ws: char -> bool): (n: nat)
    ensures n <= |s| && (n < |s| ==> !ws(s[n]))
    ensures forall k :: 0 <= k < n ==> ws(s[k])
  {
    if s != [] && ws(s[0]) then
      var n := LeadingCount(s[1..], ws);
      assert forall k :: 1 <= k < n + 1 ==> s[k] == s[1..][k - 1];
      n + 1
    else 0
  }

  /** Removes the leading characters that satisfy `ws`. */
  function TrimStart(s: string, ws: char -> bool): (r: string)
    ensures |r| <= |s| && forall k :: 0 <= k < |r| ==> r[k] == s[|s| - |r| + k]
    ensures forall k :: 0 <= k < |s| - |r| ==> ws(s[k])
    ensures r == [] || !ws(r[0])
  {
    s[LeadingCount(s, ws)..]
  }

  /** Removes the trailing characters that satisfy `ws`. */
  function TrimEnd(s: string, ws: char -> bool): (r: string)
    ensures |r| <= |s| && r == s[..|r|]
    ensures forall k :: |r| <= k < |s| ==> ws(s[k])
    ensures r == [] || !ws(r[|r| - 1])
  {
    if s != [] && ws(s[|s| - 1]) then
      var r := TrimEnd(s[..|s| - 1], ws);
      assert s[..|s| - 1][..|r|] == s[..|r|];
      r
    else s
  }

  /** Removes the characters that satisfy `ws` from both ends. */
  function Trim(s: string, ws: char -> bool): string
  {
    TrimEnd(TrimStart(s, ws), ws)
  }

  /** A string trims to empty exactly when every character in it is whitespace. */
  lemma TrimIsEmptyIff(s: string, ws: char -> bool)
    ensures Trim(s, ws) == [] <==> forall k :: 0 <= k < |s| ==> ws(s[k])
  {
    var a := TrimStart(s, ws);
    if Trim(s, ws) == [] {
      TrimEndIsEmptyOnlyIfBlank(a, ws);
    }
  }

  /** A string that does not start with whitespace trims at the end to empty
      only when it is empty. */
  lemma TrimEndIsEmptyOnlyIfBlank(a: string, ws: char -> bool)
    requires a == [] || !ws(a[0])
    requires TrimEnd(a, ws) == []
    ensures a == []
  {
  }

  /** A string with no whitespace at either end is its own trim. */
  lemma TrimOfUnpadded(s: string, ws: char -> bool)
    requires s != [] ==> !ws(s[0]) && !ws(s[|s| - 1])
    ensures Trim(s, ws) == s
  {
  }

  predicate IsDigit(c: char)
  {
    '0' <= c <= '9'
  }

  function DigitValue(c: char): nat
    requires IsDigit(c)
  {
    (c as int) - ('0' as int)
  }

  function DigitChar(d: nat): (c: char)
    requires d < 10
    ensures IsDigit(c) && DigitValue(c) == d
  {
    (('0' as int) + d) as char
  }

  /** The decimal numeral of `n` without leading zeros, as JavaScript's
      template literal and Python's `str` write a non-negative number. */
  function NatToDecimal(n: nat): (r: string)
    ensures r != [] && forall k :: 0 <= k < |r| ==> IsDigit(r[k])
    ensures |r| > 1 ==> r[0] != '0'
    ensures n > 0 ==> r[0] != '0'
  {
    if n < 10 then [DigitChar(n)] else NatToDecimal(n / 10) + [DigitChar(n % 10)]
  }

  /** Python's `str` of an integer. */
  function IntToDecimal(i: int): string
  {
    if i < 0 then "-" + NatToDecimal(-i) else NatToDecimal(i)
  }

  /** The value of a run of digits, skipping the `_` separators Python allows. */
  function DigitsValue(s: string): nat
    requires forall k :: 0 <= k < |s| ==> IsDigit(s[k]) || s[k] == '_'
  {
    if s == [] then 0
    else if s[|s| - 1] == '_' then DigitsValue(s[..|s| - 1])
    else DigitsValue(s[..|s| - 1]) * 10 + DigitValue(s[|s| - 1])
  }

  /** Reading back a decimal numeral gives the number that was written. */
  lemma {:induction false} DecimalRoundTrip(n: nat)
    ensures DigitsValue(NatToDecimal(n)) == n
  {
    if n >= 10 {
      var prefix := NatToDecimal(n / 10);
      assert (prefix + [DigitChar(n % 10)])[..|prefix|] == prefix;
      DecimalRoundTrip(n / 10);
    }
  }

  /** Digits with single `_` separators between them: what Python's `int()`
      accepts after the sign. */
  predicate IsPythonDigitRun(s: string)
  {
    && s != []
    && IsDigit(s[0]) && IsDigit(s[|s| - 1])
    && (forall k :: 0 <= k < |s| ==> IsDigit(s[k]) || s[k] == '_')
    && (forall k :: 0 <= k < |s| - 1 ==> !(s[k] == '_' && s[k + 1] == '_'))
  }

  /** The number of digits in a run, not counting the `_` separators. */
  function DigitCount(s: string): nat
  {
    if s == [] then 0
    else DigitCount(s[..|s| - 1]) + (if s[|s| - 1] == '_' then 0 else 1)
  }

  /** CPython's default limit on the digits of an integer converted from or
      to a decimal string (`sys.int_info.default_max_str_digits`). */
  const IntMaxStrDigits: nat := 4300

  /** What `int()` accepts once the whitespace is stripped: an optional
      sign followed by a digit run of at most `IntMaxStrDigits` digits. */
  function ParseSignedDigits(t: string): Option<int>
  {
    if t != [] && (t[0] == '+' || t[0] == '-') then
      if IsPythonDigitRun(t[1..]) && DigitCount(t[1..]) <= IntMaxStrDigits then
        var magnitude: int := DigitsValue(t[1..]);
        Some(if t[0] == '-' then -magnitude else magnitude)
      else None
    else if IsPythonDigitRun(t) && DigitCount(t) <= IntMaxStrDigits then Some(DigitsValue(t))
    else None
  }

  /** Python's `int(s)` in base 10: surrounding whitespace is stripped and
      the rest must be an optionally signed digit run within the digit
      limit; anything else raises `ValueError`, modelled as `None`. */
  function ParsePythonInt(s: string): Option<int>
  {
    ParseSignedDigits(Trim(s, IsIntWhitespace))
  }

  /** Without separators, the digit count is the length. */
  lemma {:induction false} DigitCountOfDigits(s: string)
    requires forall k :: 0 <= k < |s| ==> IsDigit(s[k])
    ensures DigitCount(s) == |s|
  {
    if s != [] {
      DigitCountOfDigits(s[..|s| - 1]);
    }
  }

  /** The absolute value, whose numeral `str` writes after any minus sign. */
  function Magnitude(i: int): (n: nat)
    ensures n == i || n == -i
  {
    if i < 0 then -i else i
  }

  lemma DigitIsNotSpaceOrSign(c: char)
    requires IsDigit(c)
    ensures !IsIntWhitespace(c) && c != '+' && c != '-'
  {
  }

  lemma DecimalIsDigitRun(n: nat)
    ensures IsPythonDigitRun(NatToDecimal(n))
  {
    var digits := NatToDecimal(n);
    forall k | 0 <= k < |digits| - 1 ensures !(digits[k] == '_' && digits[k + 1] == '_') {
      assert IsDigit(digits[k]);
    }
  }

  /** `str(i)` reads back as `i` once stripped. */
  lemma SignedDigitsRoundTrip(i: int)
    requires |NatToDecimal(Magnitude(i))| <= IntMaxStrDigits
    ensures ParseSignedDigits(IntToDecimal(i)) == Some(i)
  {
    var n: nat := Magnitude(i);
    var digits := NatToDecimal(n);
    DecimalRoundTrip(n);
    DecimalIsDigitRun(n);
    DigitCountOfDigits(digits);
    DigitIsNotSpaceOrSign(digits[0]);
    if i < 0 {
      assert IntToDecimal(i)[1..] == digits;
    } else {
      assert IntToDecimal(i) == digits;
    }
  }

  /** `str(i)` has no whitespace to strip. */
  lemma DecimalIsUnpadded(i: int)
    ensures Trim(IntToDecimal(i), IsIntWhitespace) == IntToDecimal(i)
  {
    var n: nat := Magnitude(i);
    var digits := NatToDecimal(n);
    var s := IntToDecimal(i);
    DigitIsNotSpaceOrSign(digits[0]);
    DigitIsNotSpaceOrSign(digits[|digits| - 1]);
    assert s[|s| - 1] == digits[|digits| - 1];
    TrimOfUnpadded(s, IsIntWhitespace);
  }

  /** `int(str(i)) == i` for every integer whose numeral is within the
      digit limit; beyond it `str(i)` itself raises. */
  lemma ParsePythonIntRoundTrip(i: int)
    requires |NatToDecimal(Magnitude(i))| <= IntMaxStrDigits
    ensures ParsePythonInt(IntToDecimal(i)) == Some(i)
  {
    DecimalIsUnpadded(i);
    SignedDigitsRoundTrip(i);
  }

  /** `str(i)` starts with a digit or a minus sign. */
  lemma DecimalStart(i: int)
    ensures IntToDecimal(i) != [] && (IntToDecimal(i)[0] == '-' || IsDigit(IntToDecimal(i)[0]))
  {
  }

  /** An argument made only of whitespace (or empty) is rejected by `int()`. */
  lemma ParsePythonIntRejectsBlank(s: string)
    requires forall k :: 0 <= k < |s| ==> IsIntWhitespace(s[k])
    ensures ParsePythonInt(s) == None
  {
    TrimIsEmptyIff(s, IsIntWhitespace);
  }

  /** A digit run over the limit, with no whitespace around it, is rejected. */
  lemma ParsePythonIntRejectsLongRun(s: string)
    requires IsPythonDigitRun(s) && DigitCount(s) > IntMaxStrDigits
    ensures ParsePythonInt(s) == None
  {
    DigitIsNotSpaceOrSign(s[0]);
    DigitIsNotSpaceOrSign(s[|s| - 1]);
    TrimOfUnpadded(s, IsIntWhitespace);
  }

  /** Once stripped, an argument that is empty or starts with neither a sign
      nor a digit is rejected. */
  lemma SignedDigitsNeedSignOrDigit(t: string)
    requires t == [] || (!IsDigit(t[0]) && t[0] != '+' && t[0] != '-')
    ensures ParseSignedDigits(t) == None
  {
  }

  /** The ASCII separators U+001C to U+001F are not stripped, so an
      argument that starts with one is rejected: `int("\x1c5")` raises. */
  lemma ParsePythonIntKeepsSeparators(s: string)
    requires s != [] && '\U{001C}' <= s[0] <= '\U{001F}'
    ensures ParsePythonInt(s) == None
  {
    assert !IsIntWhitespace(s[0]);
    assert TrimStart(s, IsIntWhitespace) == s;
    var t := TrimEnd(s, IsIntWhitespace);
    assert t == [] || t[0] == s[0];
    SignedDigitsNeedSignOrDigit(t);
  }
}
