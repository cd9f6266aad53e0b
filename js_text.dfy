/**
 * The JavaScript string and number built-ins the route handlers lean on:
 * `String.prototype.trim`, the global `parseInt` (no radix argument),
 * the `/^\d+$/` test, `String(n)` for integers and
 * `Math.max(lo, Math.min(x, hi))`.
 */
module JsText {
  import opened Wrappers

  /** ECMAScript WhiteSpace and LineTerminator code points: what `trim` and `parseInt` skip
      (tab to carriage return, space, and the Unicode spaces from U+00A0 on). */
  predicate IsWhitespace(c: char) {
    if c < '\U{00A0}' then c == ' ' || ('\t' <= c <= '\r')
    else
      || c == '\U{00A0}' || c == '\U{1680}' || ('\U{2000}' <= c <= '\U{200A}')
      || c == '\U{2028}' || c == '\U{2029}' || c == '\U{202F}' || c == '\U{205F}'
      || c == '\U{3000}' || c == '\U{FEFF}'
  }

  /** Every character of `s` is white space (true of the empty string). */
  predicate IsBlank(s: string) {
    forall i | 0 <= i < |s| :: IsWhitespace(s[i])
  }

  /** `s` with its leading white space removed. */
  function TrimStart(s: string): (r: string)
    ensures |r| <= |s| && r == s[|s| - |r|..]
    ensures r == [] || !IsWhitespace(r[0])
    ensures IsBlank(s[..|s| - |r|])
  {
    if s != [] && IsWhitespace(s[0]) then TrimStart(s[1..]) else s
  }

  /** `s` with its trailing white space removed. */
  function TrimEnd(s: string): (r: string)
    ensures |r| <= |s| && r == s[..|r|]
    ensures r == [] || !IsWhitespace(r[|r| - 1])
    ensures IsBlank(s[|r|..])
  {
    if s != [] && IsWhitespace(s[|s| - 1]) then TrimEnd(s[..|s| - 1]) else s
  }

  /** `s.trim()`: a slice of `s` that neither starts nor ends with white space,
      cut off only white space on either side. */
  function Trim(s: string): (r: string)
    ensures |r| <= |s|
    ensures r == [] || (!IsWhitespace(r[0]) && !IsWhitespace(r[|r| - 1]))
  {
    TrimEnd(TrimStart(s))
  }

  /** How many characters `trim` cuts off at the start. */
  function Lead(s: string): (n: nat)
    ensures n <= |s|
  {
    |s| - |TrimStart(s)|
  }

  /** `trim` keeps the slice of `s` that starts after the leading white space. */
  lemma TrimKeepsSlice(s: string)
    ensures Lead(s) + |Trim(s)| <= |s|
    ensures Trim(s) == s[Lead(s)..Lead(s) + |Trim(s)|]
  {
    SuffixSlices(s, Lead(s), |Trim(s)|);
  }

  /** What `trim` cuts off is white space, on either side of the slice it keeps. */
  lemma TrimCutsBlank(s: string)
    ensures Lead(s) + |Trim(s)| <= |s|
    ensures IsBlank(s[..Lead(s)]) && IsBlank(s[Lead(s) + |Trim(s)|..])
  {
    var t := TrimStart(s);
    SuffixSlices(s, Lead(s), |Trim(s)|);
    assert IsBlank(t[|Trim(s)|..]);
  }

  lemma SuffixSlices(s: string, i: nat, k: nat)
    requires i + k <= |s|
    ensures s[i..][..k] == s[i..i + k] && s[i..][k..] == s[i + k..]
  {
  }

  lemma BlankConcat(a: string, b: string)
    requires IsBlank(a) && IsBlank(b)
    ensures IsBlank(a + b)
  {
  }

  lemma BlankSuffix(s: string, k: nat)
    requires IsBlank(s) && k <= |s|
    ensures IsBlank(s[k..])
  {
    assert forall i | 0 <= i < |s| - k :: s[k..][i] == s[k + i];
  }

  /** `!s.trim()` in the handlers: the trimmed string is empty exactly when `s` is blank. */
  lemma TrimEmptyIffBlank(s: string)
    ensures Trim(s) == [] <==> IsBlank(s)
  {
    var t := TrimStart(s);
    if IsBlank(s) {
      BlankSuffix(s, |s| - |t|);
    } else if Trim(s) == [] {
      assert TrimEnd(t) == [];
      assert t[|TrimEnd(t)|..] == t;
      assert s == s[..|s| - |t|] + t;
      BlankConcat(s[..|s| - |t|], t);
    }
  }

  /** Trimming twice is trimming once. */
  lemma TrimIdempotent(s: string)
    ensures Trim(Trim(s)) == Trim(s)
  {
    var r := Trim(s);
    if r != [] {
      assert TrimStart(r) == r;
      assert TrimEnd(r) == r;
    }
  }

  // ---------------------------------------------------------------------------
  // Digits and integer values

  predicate IsDecimalDigit(c: char) {
    '0' <= c <= '9'
  }

  predicate IsHexDigit(c: char) {
    IsDecimalDigit(c) || ('a' <= c <= 'f') || ('A' <= c <= 'F')
  }

  predicate IsDigitOf(c: char, radix: int) {
    if radix == 16 then IsHexDigit(c) else IsDecimalDigit(c)
  }

  function DigitValue(c: char): (v: nat)
    requires IsHexDigit(c)
    ensures v < 16
    ensures IsDecimalDigit(c) ==> v < 10
  {
    if IsDecimalDigit(c) then c as int - '0' as int
    else if 'a' <= c <= 'f' then c as int - 'a' as int + 10
    else c as int - 'A' as int + 10
  }

  /** The regular expression `/^\d+$/`: one or more ASCII decimal digits and nothing else. */
  predicate IsDigits(s: string) {
    |s| > 0 && forall i | 0 <= i < |s| :: IsDecimalDigit(s[i])
  }

  /** The value of a run of digits in base `radix`, most significant digit first. */
  function RunValue(d: string, radix: int): nat
    requires radix == 10 || radix == 16
    requires forall i | 0 <= i < |d| :: IsDigitOf(d[i], radix)
  {
    if d == [] then 0
    else
      assert IsDigitOf(d[|d| - 1], radix);
      assert IsHexDigit(d[|d| - 1]);
      RunValue(d[..|d| - 1], radix) * (if radix == 16 then 16 else 10) + DigitValue(d[|d| - 1])
  }

  /** The longest prefix of `s` made of digits of base `radix`. */
  function DigitRun(s: string, radix: int): (d: string)
    ensures |d| <= |s| && d == s[..|d|]
    ensures forall i | 0 <= i < |d| :: IsDigitOf(d[i], radix)
    ensures |d| < |s| ==> !IsDigitOf(s[|d|], radix)
  {
    if s != [] && IsDigitOf(s[0], radix) then [s[0]] + DigitRun(s[1..], radix) else []
  }

  /** The sign that `parseInt` reads after the leading white space, and the rest. */
  function SplitSign(t: string): (bool, string) {
    if t != [] && (t[0] == '-' || t[0] == '+') then (t[0] == '-', t[1..]) else (false, t)
  }

  /** `0x`/`0X` switches `parseInt` to base 16 when no radix is given. */
  function SplitRadix(u: string): (int, string) {
    if |u| >= 2 && u[0] == '0' && (u[1] == 'x' || u[1] == 'X') then (16, u[2..]) else (10, u)
  }

  /**
   * The global `parseInt(s)` with no radix: leading white space is skipped, one
   * optional sign is read, a `0x` prefix selects base 16, and the longest run of
   * digits that follows is the value; everything after it is ignored. No digit at
   * all is NaN, here `None`.
   */
  function ParseInt(s: string): Option<int> {
    var t := TrimStart(s);
    var (negative, u) := SplitSign(t);
    var (radix, w) := SplitRadix(u);
    SignedValue(negative, DigitRun(w, radix), radix)
  }

  /** The value of a digit run read with the given sign; no digit is NaN. */
  function SignedValue(negative: bool, d: string, radix: int): Option<int>
    requires radix == 10 || radix == 16
    requires forall i | 0 <= i < |d| :: IsDigitOf(d[i], radix)
  {
    if d == [] then None
    else
      var v: int := RunValue(d, radix);
      Some(if negative then -v else v)
  }

  lemma TrimStartNoop(s: string)
    requires s == [] || !IsWhitespace(s[0])
    ensures TrimStart(s) == s
  {
  }

  lemma ParseIntUnsigned(u: string)
    requires u != [] && IsDecimalDigit(u[0])
    requires !(|u| >= 2 && u[0] == '0' && (u[1] == 'x' || u[1] == 'X'))
    ensures ParseInt(u) == SignedValue(false, DigitRun(u, 10), 10)
  {
    TrimStartNoop(u);
    assert SplitSign(u) == (false, u);
    assert SplitRadix(u) == (10, u);
  }

  lemma ParseIntNegative(u: string)
    requires u != [] && IsDecimalDigit(u[0])
    requires !(|u| >= 2 && u[0] == '0' && (u[1] == 'x' || u[1] == 'X'))
    ensures ParseInt("-" + u) == SignedValue(true, DigitRun(u, 10), 10)
  {
    var s := "-" + u;
    assert s[0] == '-' && s[1..] == u;
    TrimStartNoop(s);
    assert SplitSign(s) == (true, u);
    assert SplitRadix(u) == (10, u);
  }

  /** On a string of decimal digits `parseInt` gives the digits' decimal value. */
  lemma ParseIntOfDigits(s: string)
    requires IsDigits(s)
    ensures ParseInt(s) == Some(RunValue(s, 10))
  {
    DigitsAreRun(s);
    assert |s| >= 2 ==> IsDecimalDigit(s[1]);
    ParseIntUnsigned(s);
  }

  lemma {:induction false} DigitRunWhole(s: string, radix: int)
    requires forall i | 0 <= i < |s| :: IsDigitOf(s[i], radix)
    ensures DigitRun(s, radix) == s
  {
    if s != [] {
      DigitRunWhole(s[1..], radix);
    }
  }

  /** `parseInt` reads a numeric prefix and ignores what follows it: `d + rest`
      parses like `d` when `rest` does not continue the number. */
  lemma ParseIntPrefix(d: string, rest: string)
    requires IsDigits(d)
    requires rest == [] || !IsDecimalDigit(rest[0])
    requires !(d == "0" && rest != [] && (rest[0] == 'x' || rest[0] == 'X'))
    ensures ParseInt(d + rest) == Some(RunValue(d, 10))
  {
    var s := d + rest;
    assert s[0] == d[0];
    assert |d| >= 2 ==> s[1] == d[1];
    assert |d| == 1 && |s| >= 2 ==> s[1] == rest[0];
    ParseIntUnsigned(s);
    DigitRunPrefix(d, rest);
  }

  lemma {:induction false} DigitRunPrefix(d: string, rest: string)
    requires forall i | 0 <= i < |d| :: IsDecimalDigit(d[i])
    requires rest == [] || !IsDecimalDigit(rest[0])
    ensures DigitRun(d + rest, 10) == d
  {
    if d == [] {
      assert d + rest == rest;
    } else {
      assert (d + rest)[1..] == d[1..] + rest;
      DigitRunPrefix(d[1..], rest);
    }
  }

  /** Without a digit where the number should start, `parseInt` is NaN. */
  lemma ParseIntNoDigits(s: string)
    requires var t := TrimStart(s); t == [] || !(IsDecimalDigit(t[0]) || t[0] == '+' || t[0] == '-')
    ensures ParseInt(s) == None
  {
    var t := TrimStart(s);
    assert SplitSign(t) == (false, t);
    assert SplitRadix(t) == (10, t);
    assert DigitRun(t, 10) == [];
  }

  lemma RunValue12()
    ensures RunValue("12", 10) == 12
  {
    assert "12"[..1] == "1";
    assert "1"[..0] == "";
  }

  /** A numeric prefix followed by letters, as in a salary typed as `"12abc"`. */
  lemma ParseIntTrailingText()
    ensures ParseInt("12abc") == Some(12)
  {
    RunValue12();
    assert "12" + "abc" == "12abc";
    ParseIntPrefix("12", "abc");
  }

  /** Leading white space does not change what `parseInt` reads. */
  lemma ParseIntTrimStart(s: string)
    ensures ParseInt(s) == ParseInt(TrimStart(s))
  {
    var t := TrimStart(s);
    TrimStartNoop(t);
  }

  /** White space before the number is skipped: `"  -7"` parses like `"-7"`. */
  lemma {:induction false} ParseIntBlankPrefix(w: string, s: string)
    requires IsBlank(w)
    ensures ParseInt(w + s) == ParseInt(s)
  {
    BlankPrefixTrim(w, s);
    ParseIntTrimStart(w + s);
    ParseIntTrimStart(s);
  }

  lemma {:induction false} BlankPrefixTrim(w: string, s: string)
    requires IsBlank(w)
    ensures TrimStart(w + s) == TrimStart(s)
  {
    if w != [] {
      assert (w + s)[0] == w[0] && (w + s)[1..] == w[1..] + s;
      BlankPrefixTrim(w[1..], s);
    } else {
      assert w + s == s;
    }
  }

  /** The `0x` prefix reads the hexadecimal digits after it. */
  lemma ParseIntHex(h: string)
    requires h != [] && forall i | 0 <= i < |h| :: IsHexDigit(h[i])
    ensures ParseInt("0x" + h) == Some(RunValue(h, 16))
  {
    var s := "0x" + h;
    assert s[0] == '0' && s[1] == 'x' && s[2..] == h;
    TrimStartNoop(s);
    assert SplitSign(s) == (false, s);
    assert SplitRadix(s) == (16, h);
    DigitRunWhole(h, 16);
  }

  // ---------------------------------------------------------------------------
  // String(n) for integers

  function NatToString(n: nat): (s: string)
    ensures IsDigits(s)
    ensures RunValue(s, 10) == n
    ensures |s| > 1 ==> s[0] != '0'
  {
    var last := ['0' + (n % 10) as char];
    if n < 10 then last
    else
      var front := NatToString(n / 10);
      var s := front + last;
      assert s[..|s| - 1] == front;
      s
  }

  /** `String(n)` for an integer `n`. */
  function IntToString(n: int): string {
    if n < 0 then "-" + NatToString(-n) else NatToString(n)
  }

  /** `parseInt(String(n))` gives `n` back, for every integer. */
  lemma {:induction false} ParseIntToString(n: int)
    ensures ParseInt(IntToString(n)) == Some(n)
  {
    if n >= 0 {
      var d := NatToString(n);
      assert IntToString(n) == d;
      ParseIntOfDigits(d);
    } else {
      var d := NatToString(-n);
      assert IntToString(n) == "-" + d;
      ParseIntNegativeDigits(d);
    }
  }

  lemma ParseIntNegativeDigits(d: string)
    requires IsDigits(d)
    ensures ParseInt("-" + d) == Some(-(RunValue(d, 10) as int))
  {
    DigitsNoHexPrefix(d);
    ParseIntNegative(d);
    DigitsAreRun(d);
    SignedDecimal(true, d);
  }

  lemma SignedDecimal(negative: bool, d: string)
    requires IsDigits(d)
    ensures SignedValue(negative, d, 10) == Some(var v: int := RunValue(d, 10); if negative then -v else v)
  {
  }

  lemma DigitsNoHexPrefix(d: string)
    requires IsDigits(d)
    ensures d != [] && IsDecimalDigit(d[0])
    ensures !(|d| >= 2 && d[0] == '0' && (d[1] == 'x' || d[1] == 'X'))
  {
    assert |d| >= 2 ==> IsDecimalDigit(d[1]);
  }

  lemma DigitsAreRun(d: string)
    requires IsDigits(d)
    ensures DigitRun(d, 10) == d
  {
    DigitRunWhole(d, 10);
  }

  // ---------------------------------------------------------------------------
  // Math.max(lo, Math.min(x, hi))

  /** `Math.max(lo, Math.min(x, hi))`: `x` pulled into `[lo, hi]`; `lo` when the range is empty. */
  function Clamp(x: int, lo: int, hi: int): (r: int)
    ensures lo <= hi ==> lo <= r <= hi
    ensures hi < lo ==> r == lo
    ensures lo <= x <= hi ==> r == x
    ensures lo <= hi && x > hi ==> r == hi
    ensures x < lo ==> r == lo
  {
    var m := if x < hi then x else hi;
    if lo > m then lo else m
  }
}
