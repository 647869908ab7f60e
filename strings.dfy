/** The JavaScript string built-ins the form relies on: the `\s` and `\d` character
    classes, `String.prototype.trim`, `length` (counted in UTF-16 code units) and
    `parseInt` with no radix (leading whitespace, one sign, a `0x` prefix, the longest
    run of digits). */
module Strings {

  import opened Wrappers

  /** The characters `\s` matches and `trim` removes: ECMAScript's WhiteSpace and
      LineTerminator productions (tab, vertical tab, form feed, the space separators
      of Unicode category Zs, the byte order mark, LF, CR, and the line and paragraph
      separators). */
  predicate IsSpace(c: char) {
    || c == '\t' || c == '\n' || c == '\U{000B}' || c == '\U{000C}' || c == '\r'
    || c == ' ' || c == '\U{00A0}' || c == '\U{1680}'
    || ('\U{2000}' <= c <= '\U{200A}')
    || c == '\U{2028}' || c == '\U{2029}' || c == '\U{202F}' || c == '\U{205F}'
    || c == '\U{3000}' || c == '\U{FEFF}'
  }

  /** Every character of `s` is whitespace (the empty string included). */
  predicate IsBlank(s: string) {
    forall i :: 0 <= i < |s| ==> IsSpace(s[i])
  }

  /** `\d`: an ASCII decimal digit. */
  predicate IsDigit(c: char) {
    '0' <= c <= '9'
  }

  predicate AllDigits(s: string) {
    forall i :: 0 <= i < |s| ==> IsDigit(s[i])
  }

  /** The length JavaScript reports: characters outside the Basic Multilingual
      Plane take two UTF-16 code units. */
  function Utf16Length(s: string): (n: nat)
    ensures n >= |s|
    ensures n <= 2 * |s|
  {
    if s == [] then 0
    else (if s[0] > '\U{FFFF}' then 2 else 1) + Utf16Length(s[1..])
  }

  /** The index just past the run of whitespace that starts at `i`. */
  function SpaceRunEnd(s: string, i: nat): (j: nat)
    requires i <= |s|
    ensures i <= j <= |s|
    ensures forall k :: i <= k < j ==> IsSpace(s[k])
    ensures j < |s| ==> !IsSpace(s[j])
    decreases |s| - i
  {
    if i < |s| && IsSpace(s[i]) then SpaceRunEnd(s, i + 1) else i
  }

  /** The index where the run of whitespace that ends just before `j` starts,
      looking no further left than `lo`. */
  function SpaceRunStart(s: string, lo: nat, j: nat): (i: nat)
    requires lo <= j <= |s|
    ensures lo <= i <= j
    ensures forall k :: i <= k < j ==> IsSpace(s[k])
    ensures lo < i ==> !IsSpace(s[i - 1])
    decreases j
  {
    if lo < j && IsSpace(s[j - 1]) then SpaceRunStart(s, lo, j - 1) else j
  }

  /** `String.prototype.trim`: whitespace removed from both ends. The result is a
      piece of the input with blank text on either side, and it neither starts nor
      ends with whitespace, so exactly the leading and trailing whitespace is gone. */
  function Trim(s: string): (r: string)
    ensures |r| <= |s|
    ensures r == [] || (!IsSpace(r[0]) && !IsSpace(r[|r| - 1]))
    ensures exists a, b ::
      && 0 <= a <= b <= |s| && r == s[a..b]
      && IsBlank(s[..a]) && IsBlank(s[b..])
  {
    var a := SpaceRunEnd(s, 0);
    var b := SpaceRunStart(s, a, |s|);
    assert IsBlank(s[..a]) by {
      forall k | 0 <= k < a ensures IsSpace(s[..a][k]) { assert s[..a][k] == s[k]; }
    }
    assert IsBlank(s[b..]) by {
      forall k | 0 <= k < |s| - b ensures IsSpace(s[b..][k]) { assert s[b..][k] == s[b + k]; }
    }
    s[a..b]
  }

  /** `s.trim() !== ''` holds exactly when `s` has a character that is not whitespace. */
  lemma TrimEmptyIffBlank(s: string)
    ensures Trim(s) == [] <==> IsBlank(s)
  {
    var a := SpaceRunEnd(s, 0);
    var b := SpaceRunStart(s, a, |s|);
    assert Trim(s) == s[a..b];
    if a < |s| {
      assert !IsSpace(s[a]);
      assert a < b;
    }
  }

  function DigitValue(c: char): (d: nat)
    requires IsDigit(c)
    ensures d < 10
  {
    (c as int) - ('0' as int)
  }

  function DigitChar(d: nat): (c: char)
    requires d < 10
    ensures IsDigit(c) && DigitValue(c) == d
  {
    (('0' as int) + d) as char
  }

  /** The number a string of decimal digits denotes, read most significant digit first. */
  function DigitsValue(s: string): nat
    requires AllDigits(s)
  {
    if s == [] then 0 else 10 * DigitsValue(s[..|s| - 1]) + DigitValue(s[|s| - 1])
  }

  /** A hexadecimal digit, either case. */
  predicate IsHexDigit(c: char) {
    IsDigit(c) || 'a' <= c <= 'f' || 'A' <= c <= 'F'
  }

  predicate AllHexDigits(s: string) {
    forall i :: 0 <= i < |s| ==> IsHexDigit(s[i])
  }

  function HexDigitValue(c: char): (d: nat)
    requires IsHexDigit(c)
    ensures d < 16
  {
    if IsDigit(c) then DigitValue(c)
    else if 'a' <= c <= 'f' then (c as int) - ('a' as int) + 10
    else (c as int) - ('A' as int) + 10
  }

  /** The number a string of hexadecimal digits denotes, most significant first. */
  function HexValue(s: string): nat
    requires AllHexDigits(s)
  {
    if s == [] then 0 else 16 * HexValue(s[..|s| - 1]) + HexDigitValue(s[|s| - 1])
  }

  /** The longest prefix of `s` made of decimal digits. */
  function DecimalPrefix(s: string): (p: string)
    ensures |p| <= |s| && p == s[..|p|] && AllDigits(p)
    ensures |p| < |s| ==> !IsDigit(s[|p|])
  {
    if s != [] && IsDigit(s[0]) then [s[0]] + DecimalPrefix(s[1..]) else []
  }

  /** The longest prefix of `s` made of hexadecimal digits. */
  function HexPrefix(s: string): (p: string)
    ensures |p| <= |s| && p == s[..|p|] && AllHexDigits(p)
    ensures |p| < |s| ==> !IsHexDigit(s[|p|])
  {
    if s != [] && IsHexDigit(s[0]) then [s[0]] + HexPrefix(s[1..]) else []
  }

  /** The digits `parseInt` reads once whitespace and sign are gone: a `0x` or `0X`
      prefix selects base 16, base 10 is used otherwise, and the longest run of
      digits of that base is read, ignoring whatever follows it. With no digit at
      all the result is `None` (`NaN`). */
  function ParseUnsigned(u: string): Option<nat> {
    if |u| >= 2 && u[0] == '0' && (u[1] == 'x' || u[1] == 'X') then
      var p := HexPrefix(u[2..]);
      if p == [] then None else Some(HexValue(p))
    else
      var p := DecimalPrefix(u);
      if p == [] then None else Some(DigitsValue(p))
  }

  function Negate(r: Option<int>): Option<int> {
    match r
    case Some(n) => var m: int := -n; Some(m)
    case None => None
  }

  /** `parseInt(s)` with no radix argument; `None` stands for `NaN`. Leading
      whitespace (the characters `trim` removes) is skipped, then one `+` or `-`
      sign is read before the digits. */
  function ParseInt(s: string): Option<int> {
    if s != [] && IsSpace(s[0]) then ParseInt(s[1..])
    else if s != [] && s[0] == '-' then Negate(ParseUnsigned(s[1..]))
    else if s != [] && s[0] == '+' then ParseUnsigned(s[1..])
    else ParseUnsigned(s)
  }

  /** `parseInt` skips leading whitespace. */
  lemma {:induction false} ParseIntSkipsBlank(ws: string, rest: string)
    requires IsBlank(ws)
    ensures ParseInt(ws + rest) == ParseInt(rest)
  {
    if ws != [] {
      assert IsSpace((ws + rest)[0]);
      assert (ws + rest)[1..] == ws[1..] + rest;
      ParseIntSkipsBlank(ws[1..], rest);
    } else {
      assert ws + rest == rest;
    }
  }

  /** `parseInt` reads a leading `-` as negation and a leading `+` as nothing, when
      the text after the sign starts with neither whitespace nor another sign. */
  lemma ParseIntSign(rest: string)
    requires rest != [] ==> !IsSpace(rest[0]) && rest[0] != '-' && rest[0] != '+'
    ensures ParseInt("+" + rest) == ParseInt(rest)
    ensures ParseInt("-" + rest) == Negate(ParseInt(rest))
  {
    assert ("+" + rest)[1..] == rest;
    assert ("-" + rest)[1..] == rest;
  }

  /** The decimal digits of `n`, without leading zeros (what a number input holds). */
  function DecimalString(n: nat): (s: string)
    ensures s != [] && AllDigits(s)
  {
    if n < 10 then [DigitChar(n)] else DecimalString(n / 10) + [DigitChar(n % 10)]
  }

  /** The digits of `n` denote `n`. */
  lemma {:induction false} DecimalStringValue(n: nat)
    ensures DigitsValue(DecimalString(n)) == n
  {
    var s := DecimalString(n);
    if n >= 10 {
      DecimalStringValue(n / 10);
      assert s[..|s| - 1] == DecimalString(n / 10);
      assert DigitValue(s[|s| - 1]) == n % 10;
    } else {
      assert DigitsValue(s) == 10 * DigitsValue([]) + DigitValue(s[0]);
    }
  }

  /** The longest digit prefix of digits followed by a non-digit is those digits. */
  lemma {:induction false} DecimalPrefixThen(p: string, rest: string)
    requires AllDigits(p)
    requires rest == [] || !IsDigit(rest[0])
    ensures DecimalPrefix(p + rest) == p
  {
    if p != [] {
      DecimalPrefixThen(p[1..], rest);
      assert (p + rest)[1..] == p[1..] + rest;
      assert [p[0]] + p[1..] == p;
    } else {
      assert p + rest == rest;
    }
  }

  /** On decimal digits followed by anything that does not start with a digit,
      `parseInt` reads the digits and ignores the rest ("25.5" and "25abc" read as
      25); a plain digit string is the case of an empty rest. The one exception is a
      lone "0" followed by "x" or "X", which starts a hexadecimal number instead. */
  lemma ParseIntOfDigitsThen(p: string, rest: string)
    requires p != [] && AllDigits(p)
    requires rest == [] || !IsDigit(rest[0])
    requires p == "0" ==> rest == [] || (rest[0] != 'x' && rest[0] != 'X')
    ensures ParseInt(p + rest) == Some(DigitsValue(p))
  {
    var s := p + rest;
    var c := s[0];
    assert c == p[0] && IsDigit(c);
    assert !IsSpace(c);
    assert c != '-' && c != '+';
    assert !(|s| >= 2 && c == '0' && (s[1] == 'x' || s[1] == 'X')) by {
      if |s| >= 2 && |p| >= 2 { assert s[1] == p[1] && IsDigit(p[1]); }
      if |s| >= 2 && |p| == 1 { assert s[1] == rest[0]; }
    }
    DecimalPrefixThen(p, rest);
  }

  /** Reading back the decimal digits of a number gives that number. */
  lemma ParseIntOfDecimalString(n: nat)
    ensures ParseInt(DecimalString(n)) == Some(n)
  {
    var s := DecimalString(n);
    DecimalStringValue(n);
    ParseIntOfDigitsThen(s, []);
    assert s + [] == s;
  }
}
