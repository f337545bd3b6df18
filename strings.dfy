/**
 The few Python string operations the scanner relies on: `str.strip` with and
 without an argument, `str.replace` of one character, `str.lower` and
 `str.endswith`, and the zero-padded decimal fields of `strftime`.
 */
module Strings {

  /**
   The 29 characters for which Python's `str.isspace` holds, listed one by one:
   tab, line feed, vertical tab, form feed, carriage return, the four
   separators U+001C to U+001F, space, then U+0085, U+00A0, U+1680, U+2000 to
   U+200A, U+2028, U+2029, U+202F, U+205F and U+3000.
   */
  const PythonWhitespace: string :=
    "\t\n\U{0B}\U{0C}\r\U{1C}\U{1D}\U{1E}\U{1F} "
    + "\U{85}\U{A0}\U{1680}"
    + "\U{2000}\U{2001}\U{2002}\U{2003}\U{2004}\U{2005}\U{2006}\U{2007}\U{2008}\U{2009}\U{200A}"
    + "\U{2028}\U{2029}\U{202F}\U{205F}\U{3000}"

  /** Python's `str.isspace`, the set `str.strip()` removes when given no argument, by code-point ranges. */
  predicate IsPythonSpace(c: char) {
    || ('\t' <= c <= '\r')
    || ('\U{1C}' <= c <= '\U{1F}')
    || c == ' '
    || c == '\U{85}'
    || c == '\U{A0}'
    || c == '\U{1680}'
    || ('\U{2000}' <= c <= '\U{200A}')
    || c == '\U{2028}'
    || c == '\U{2029}'
    || c == '\U{202F}'
    || c == '\U{205F}'
    || c == '\U{3000}'
  }

  /** The range test picks out exactly the characters of the table. */
  lemma PythonSpaceTable(c: char)
    ensures IsPythonSpace(c) <==> c in PythonWhitespace
  {
  }

  /** The character sets the scanner strips: Python whitespace, or the double quote. */
  datatype CharClass = Whitespace | Quote

  predicate In(cs: CharClass, c: char) {
    match cs
    case Whitespace => IsPythonSpace(c)
    case Quote => c == '"'
  }

  /** The first index at or after `i` whose character `drop` does not select, or `|s|`. */
  function SkipForward(s: string, drop: CharClass, i: nat): (r: nat)
    requires i <= |s|
    ensures i <= r <= |s|
    ensures forall k :: i <= k < r ==> In(drop, s[k])
    ensures r < |s| ==> !In(drop, s[r])
    decreases |s| - i
  {
    if i < |s| && In(drop, s[i]) then SkipForward(s, drop, i + 1) else i
  }

  /** The last end `r` in `lo..j` such that `s[r - 1]` is not selected, or `lo`. */
  function SkipBackward(s: string, drop: CharClass, lo: nat, j: nat): (r: nat)
    requires lo <= j <= |s|
    ensures lo <= r <= j
    ensures forall k :: r <= k < j ==> In(drop, s[k])
    ensures r > lo ==> !In(drop, s[r - 1])
    decreases j
  {
    if j > lo && In(drop, s[j - 1]) then SkipBackward(s, drop, lo, j - 1) else j
  }

  /**
   Python's `s.strip(chars)` for the character set `drop`: the result is the
   slice of `s` left once the longest selected prefix and the longest selected
   suffix are gone, so it neither starts nor ends with a selected character.
   */
  function Strip(s: string, drop: CharClass): (r: string)
    ensures r != [] ==> !In(drop, r[0]) && !In(drop, r[|r| - 1])
  {
    var i := SkipForward(s, drop, 0);
    s[i..SkipBackward(s, drop, i, |s|)]
  }

  /**
   What Python promises of `strip`: the result is a slice of `s`, everything
   cut off before and after it is in the set, and the slice neither starts
   nor ends with a character of the set (so an all-selected `s` strips to "").
   */
  lemma StripIsSlice(s: string, drop: CharClass)
    ensures exists i, j ::
      && 0 <= i <= j <= |s|
      && Strip(s, drop) == s[i..j]
      && (forall k :: 0 <= k < i ==> In(drop, s[k]))
      && (forall k :: j <= k < |s| ==> In(drop, s[k]))
  {
    var i := SkipForward(s, drop, 0);
    var j := SkipBackward(s, drop, i, |s|);
    assert Strip(s, drop) == s[i..j];
  }

  /** Python's `s.replace(target, substitute)` for single characters. */
  function Replace(s: string, target: char, substitute: char): (r: string)
    ensures |r| == |s|
    ensures forall k :: 0 <= k < |s| ==> r[k] == (if s[k] == target then substitute else s[k])
  {
    if s == [] then []
    else [if s[0] == target then substitute else s[0]] + Replace(s[1..], target, substitute)
  }

  /** The lower-case form of one character; only the ASCII letters change. */
  function LowerChar(c: char): char {
    if 'A' <= c <= 'Z' then (c as int - 'A' as int + 'a' as int) as char else c
  }

  /** Python's `s.lower()`, restricted to the ASCII case mapping. */
  function Lower(s: string): (r: string)
    ensures |r| == |s|
    ensures forall k :: 0 <= k < |s| ==> r[k] == LowerChar(s[k])
  {
    if s == [] then [] else [LowerChar(s[0])] + Lower(s[1..])
  }

  /** Python's `s.endswith(suffix)`. */
  predicate EndsWith(s: string, suffix: string) {
    |suffix| <= |s| && s[|s| - |suffix|..] == suffix
  }

  /** The decimal digit for `d`. */
  function DigitChar(d: nat): char
    requires d < 10
  {
    ('0' as int + d) as char
  }

  predicate IsDigit(c: char) {
    '0' <= c <= '9'
  }

  function Pow10(n: nat): (p: nat)
    ensures p >= 1
  {
    if n == 0 then 1 else 10 * Pow10(n - 1)
  }

  /** The value of a string of decimal digits. */
  function DigitsValue(s: string): nat
    requires forall k :: 0 <= k < |s| ==> IsDigit(s[k])
  {
    if s == [] then 0
    else
      assert IsDigit(s[|s| - 1]);
      10 * DigitsValue(s[..|s| - 1]) + (s[|s| - 1] as int - '0' as int)
  }

  /**
   The last `width` decimal digits of `n`, with leading zeros: the `%02d`-style
   field `strftime` writes for a month, a day, an hour, and so on.
   */
  function Padded(n: nat, width: nat): (r: string)
    ensures |r| == width
    ensures forall k :: 0 <= k < |r| ==> IsDigit(r[k])
  {
    if width == 0 then [] else Padded(n / 10, width - 1) + [DigitChar(n % 10)]
  }

  /** Reading the padded field back gives the number, whenever it fits in the width. */
  lemma {:induction false} PaddedValue(n: nat, width: nat)
    requires n < Pow10(width)
    ensures DigitsValue(Padded(n, width)) == n
  {
    if width > 0 {
      PaddedValue(n / 10, width - 1);
      var r := Padded(n, width);
      assert r[..|r| - 1] == Padded(n / 10, width - 1);
    }
  }
}
