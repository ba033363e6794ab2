/** The JavaScript string built-ins the components rely on: `String.prototype.trim`,
    `String(n)` for a natural number, and `String.prototype.padStart`. */
module Text {

  /** ECMAScript's WhiteSpace and LineTerminator code points: exactly what `trim` removes
      (TAB, LF, VT, FF, CR, SPACE, NBSP, the Unicode space separators, LS, PS and the BOM). */
  predicate IsJsWhitespace(c: char) {
    || c == '\t' || c == '\n' || c == '\U{B}' || c == '\U{C}' || c == '\r' || c == ' '
    || c == '\U{A0}' || c == '\U{1680}' || ('\U{2000}' <= c <= '\U{200A}')
    || c == '\U{2028}' || c == '\U{2029}' || c == '\U{202F}' || c == '\U{205F}'
    || c == '\U{3000}' || c == '\U{FEFF}'
  }

  /** Every character of `s` is whitespace (the empty string included). */
  predicate IsBlank(s: string) {
    forall k :: 0 <= k < |s| ==> IsJsWhitespace(s[k])
  }

  /** Leading whitespace removed: the dropped part is all whitespace. */
  function TrimStart(s: string): (r: string)
    ensures |r| <= |s|
    ensures IsBlank(s[..|s| - |r|])
    ensures r != [] ==> !IsJsWhitespace(r[0])
  {
    if s != [] && IsJsWhitespace(s[0]) then TrimStart(s[1..]) else s
  }

  /** What `TrimStart` keeps is a suffix of its input. */
  lemma {:induction false} TrimStartIsSuffix(s: string)
    ensures TrimStart(s) == s[|s| - |TrimStart(s)|..]
  {
    if s != [] && IsJsWhitespace(s[0]) {
      TrimStartIsSuffix(s[1..]);
    }
  }

  /** Trailing whitespace removed: a prefix of `s` whose dropped part is all whitespace. */
  function TrimEnd(s: string): (r: string)
    ensures |r| <= |s| && r == s[..|r|]
    ensures IsBlank(s[|r|..])
    ensures r != [] ==> !IsJsWhitespace(r[|r| - 1])
  {
    if s != [] && IsJsWhitespace(s[|s| - 1]) then TrimEnd(s[..|s| - 1]) else s
  }

  /** `s.trim()`; it is empty exactly when `s` is blank. */
  function Trim(s: string): (r: string)
    ensures |r| <= |s|
    ensures r == [] <==> IsBlank(s)
    ensures r != [] ==> !IsJsWhitespace(r[0]) && !IsJsWhitespace(r[|r| - 1])
  {
    TrimStartIsSuffix(s);
    assert s == s[..|s| - |TrimStart(s)|] + TrimStart(s);
    TrimEnd(TrimStart(s))
  }

  /** Where the trimmed slice starts in the input: the length of the leading whitespace. */
  function TrimOffset(s: string): (i: nat)
    ensures i <= |s| && IsBlank(s[..i])
  {
    |s| - |TrimStart(s)|
  }

  /** `trim` keeps a contiguous slice of its input and drops only whitespace around it. */
  lemma TrimIsInfix(s: string)
    ensures TrimOffset(s) + |Trim(s)| <= |s|
    ensures Trim(s) == s[TrimOffset(s)..TrimOffset(s) + |Trim(s)|]
    ensures IsBlank(s[TrimOffset(s) + |Trim(s)|..])
  {
    TrimStartIsSuffix(s);
    var t := TrimStart(s);
    var i := |s| - |t|;
    var r := TrimEnd(t);
    assert s[i + |r|..] == t[|r|..];
  }

  /** Trimming twice is trimming once. */
  lemma TrimIdempotent(s: string)
    ensures Trim(Trim(s)) == Trim(s)
  {
    var r := Trim(s);
    assert TrimStart(r) == r;
    assert TrimEnd(r) == r;
  }

  /** `TrimStart` drops exactly a blank prefix in front of a non-whitespace character. */
  lemma {:induction false} TrimStartBlankPrefix(a: string, t: string)
    requires IsBlank(a) && (t == [] || !IsJsWhitespace(t[0]))
    ensures TrimStart(a + t) == t
  {
    if a == [] {
      assert a + t == t;
    } else {
      assert (a + t)[0] == a[0] && (a + t)[1..] == a[1..] + t;
      TrimStartBlankPrefix(a[1..], t);
    }
  }

  /** `TrimEnd` drops exactly a blank suffix after a non-whitespace character. */
  lemma {:induction false} TrimEndBlankSuffix(t: string, c: string)
    requires IsBlank(c) && (t == [] || !IsJsWhitespace(t[|t| - 1]))
    ensures TrimEnd(t + c) == t
  {
    if c == [] {
      assert t + c == t;
    } else {
      var u := t + c;
      assert u[|u| - 1] == c[|c| - 1] && u[..|u| - 1] == t + c[..|c| - 1];
      TrimEndBlankSuffix(t, c[..|c| - 1]);
    }
  }

  /** `trim` of a string with no whitespace at its ends, surrounded by whitespace, is that string. */
  lemma TrimAround(a: string, b: string, c: string)
    requires IsBlank(a) && IsBlank(c)
    requires b != [] && !IsJsWhitespace(b[0]) && !IsJsWhitespace(b[|b| - 1])
    ensures Trim(a + b + c) == b
  {
    assert a + b + c == a + (b + c);
    TrimStartBlankPrefix(a, b + c);
    TrimEndBlankSuffix(b, c);
  }

  /** The character of a decimal digit. */
  function DigitChar(d: nat): (c: char)
    requires d < 10
    ensures '0' <= c <= '9' && c as int - '0' as int == d
  {
    ('0' as int + d) as char
  }

  /** The value of a decimal digit character. */
  function DigitValue(c: char): (d: nat)
    requires '0' <= c <= '9'
    ensures d < 10 && DigitChar(d) == c
  {
    (c as int - '0' as int)
  }

  predicate IsDigits(s: string) {
    forall k :: 0 <= k < |s| ==> '0' <= s[k] <= '9'
  }

  /** `String(n)` for a natural number: its decimal digits, without leading zeros. */
  function DecimalString(n: nat): (r: string)
    ensures r != [] && IsDigits(r)
    ensures |r| > 1 ==> r[0] != '0'
    ensures n < 10 <==> |r| == 1
  {
    if n < 10 then [DigitChar(n)] else DecimalString(n / 10) + [DigitChar(n % 10)]
  }

  /** The number a string of decimal digits denotes (leading zeros allowed). */
  function ParseDecimal(s: string): (r: nat)
    requires IsDigits(s)
  {
    if s == [] then 0 else ParseDecimal(s[..|s| - 1]) * 10 + DigitValue(s[|s| - 1])
  }

  lemma {:induction false} ParseDecimalString(n: nat)
    ensures ParseDecimal(DecimalString(n)) == n
  {
    if n >= 10 {
      var s := DecimalString(n);
      assert s[..|s| - 1] == DecimalString(n / 10);
      ParseDecimalString(n / 10);
    }
  }

  lemma {:induction false} ParseDecimalLeadingZero(s: string)
    requires IsDigits(s)
    ensures IsDigits(['0'] + s) && ParseDecimal(['0'] + s) == ParseDecimal(s)
  {
    if s != [] {
      var z := ['0'] + s;
      assert z[..|z| - 1] == ['0'] + s[..|s| - 1];
      ParseDecimalLeadingZero(s[..|s| - 1]);
    }
  }

  /** `n` copies of `c`. */
  function Repeat(c: char, n: nat): (r: string)
    ensures |r| == n && forall k :: 0 <= k < n ==> r[k] == c
  {
    seq(n, _ => c)
  }

  /** `s.padStart(width, fill)` with a one-character fill: `fill` repeated in front of `s` up to
      `width` characters; a string already that long is returned as it is. */
  function PadStart(s: string, width: nat, fill: char): (r: string)
    ensures |r| == if |s| < width then width else |s|
    ensures r[|r| - |s|..] == s
    ensures forall k :: 0 <= k < |r| - |s| ==> r[k] == fill
  {
    if |s| < width then Repeat(fill, width - |s|) + s else s
  }

  /** Zeros in front of a string of digits keep the number it denotes. */
  lemma {:induction false} ZerosValue(s: string, n: nat)
    requires IsDigits(s)
    ensures IsDigits(Repeat('0', n) + s) && ParseDecimal(Repeat('0', n) + s) == ParseDecimal(s)
  {
    if n == 0 {
      assert Repeat('0', n) + s == s;
    } else {
      var t := Repeat('0', n - 1) + s;
      assert Repeat('0', n) + s == ['0'] + t;
      ZerosValue(s, n - 1);
      ParseDecimalLeadingZero(t);
    }
  }

  /** Zero-padding keeps the denoted number. */
  lemma PadStartZeroValue(s: string, width: nat)
    requires IsDigits(s)
    ensures IsDigits(PadStart(s, width, '0'))
    ensures ParseDecimal(PadStart(s, width, '0')) == ParseDecimal(s)
  {
    if |s| < width {
      ZerosValue(s, width - |s|);
    }
  }
}
