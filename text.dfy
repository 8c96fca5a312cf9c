/**
 * The two text operations the handlers apply to a message before using it:
 * Python's `str.strip()` and `int(...)` on the stripped text.
 */
module Text {
  import opened Wrappers

  /** The characters for which Python's `str.isspace()` holds, and which `strip()` removes. */
  predicate IsSpace(c: char) {
    || c == ' ' || c == '\t' || c == '\n' || c == '\r'
    || c == '\U{B}' || c == '\U{C}'
    || ('\U{1C}' <= c <= '\U{1F}')
    || c == '\U{85}' || c == '\U{A0}' || c == '\U{1680}'
    || ('\U{2000}' <= c <= '\U{200A}')
    || c == '\U{2028}' || c == '\U{2029}' || c == '\U{202F}' || c == '\U{205F}' || c == '\U{3000}'
  }

  /** Every character of `s[i..j]` is whitespace. */
  predicate SpaceBetween(s: string, i: int, j: int) {
    forall k :: i <= k < j && 0 <= k < |s| ==> IsSpace(s[k])
  }

  predicate AllSpace(s: string) {
    SpaceBetween(s, 0, |s|)
  }

  /** No whitespace at either end. */
  predicate Trimmed(s: string) {
    s == [] || (!IsSpace(s[0]) && !IsSpace(s[|s| - 1]))
  }

  /** Where the whitespace run starting at `i` ends: the first non-whitespace index from `i` on, or `|s|`. */
  function SkipSpace(s: string, i: nat): (n: nat)
    requires i <= |s|
    ensures i <= n <= |s| && SpaceBetween(s, i, n)
    ensures n < |s| ==> !IsSpace(s[n])
    decreases |s| - i
  {
    if i < |s| && IsSpace(s[i]) then SkipSpace(s, i + 1) else i
  }

  /** Where the whitespace run ending at `j` starts: one past the last non-whitespace index before `j`, or 0. */
  function SkipSpaceBack(s: string, j: nat): (n: nat)
    requires j <= |s|
    ensures n <= j && SpaceBetween(s, n, j)
    ensures n > 0 ==> !IsSpace(s[n - 1])
  {
    if j > 0 && IsSpace(s[j - 1]) then SkipSpaceBack(s, j - 1) else j
  }

  /**
   * `s.strip()`: `s` without its leading and trailing whitespace. The result is empty exactly
   * when `s` is all whitespace; otherwise it is the slice of `s` from the first to the last
   * character that is not whitespace.
   */
  function Strip(s: string): (r: string)
    ensures Trimmed(r)
    ensures r == [] <==> AllSpace(s)
    ensures r != [] ==>
              && SkipSpace(s, 0) + |r| <= |s|
              && r == s[SkipSpace(s, 0)..SkipSpace(s, 0) + |r|]
              && SpaceBetween(s, 0, SkipSpace(s, 0))
              && SpaceBetween(s, SkipSpace(s, 0) + |r|, |s|)
  {
    var i := SkipSpace(s, 0);
    var j := SkipSpaceBack(s, |s|);
    if i < j then s[i..j] else []
  }

  /** Stripping whitespace around a text that has none at its ends gives back that text. */
  lemma StripPadded(pre: string, core: string, post: string)
    requires AllSpace(pre) && AllSpace(post) && Trimmed(core)
    ensures Strip(pre + core + post) == core
  {
    var s := pre + core + post;
    if core == [] {
      assert s == pre + post;
      assert AllSpace(s);
    } else {
      var i := SkipSpace(s, 0);
      var j := SkipSpaceBack(s, |s|);
      assert s[|pre|] == core[0];
      assert s[|pre| + |core| - 1] == core[|core| - 1];
      assert i == |pre| && j == |pre| + |core|;
      assert s[i..j] == core;
    }
  }

  /** `strip()` is idempotent: the handlers' `int(text.strip())` sees no whitespace left for `int` to skip. */
  lemma StripIdempotent(s: string)
    ensures Strip(Strip(s)) == Strip(s)
  {
    var r := Strip(s);
    assert [] + r + [] == r;
    StripPadded([], r, []);
  }

  predicate IsDigit(c: char) {
    '0' <= c <= '9'
  }

  predicate AllDigits(s: string) {
    forall k :: 0 <= k < |s| ==> IsDigit(s[k])
  }

  /** The value of a string of decimal digits, most significant first (leading zeros allowed). */
  function DigitsValue(s: string): nat
    requires AllDigits(s)
  {
    if s == [] then 0 else DigitsValue(s[..|s| - 1]) * 10 + (s[|s| - 1] as int - '0' as int)
  }

  /**
   * Python's `int(s)` on an already stripped string: an optional sign followed by at least
   * one decimal digit; anything else raises `ValueError`, modelled as `None`.
   */
  function ParseInt(s: string): (r: Option<int>)
    ensures r.Some? ==> s != [] && forall k :: 0 <= k < |s| ==> IsDigit(s[k]) || (k == 0 && (s[0] == '+' || s[0] == '-'))
    ensures (s != [] && AllDigits(s)) ==> r == Some(DigitsValue(s))
    ensures r.Some? && r.value < 0 ==> s[0] == '-'
    ensures r.Some? <==> (s != [] && AllDigits(s)) || (|s| >= 2 && (s[0] == '+' || s[0] == '-') && AllDigits(s[1..]))
    ensures |s| >= 2 && (s[0] == '+' || s[0] == '-') && AllDigits(s[1..]) ==>
              r == Some(if s[0] == '-' then -(DigitsValue(s[1..]) as int) else DigitsValue(s[1..]))
  {
    if s != [] && (s[0] == '+' || s[0] == '-') then
      var digits := s[1..];
      if digits != [] && AllDigits(digits) then
        var v: int := if s[0] == '-' then -(DigitsValue(digits) as int) else DigitsValue(digits);
        Some(v)
      else None
    else if s != [] && AllDigits(s) then Some(DigitsValue(s))
    else None
  }

  function DigitChar(d: nat): (c: char)
    requires d < 10
    ensures IsDigit(c) && c as int - '0' as int == d
  {
    ('0' as int + d) as char
  }

  /** Decimal rendering of a natural number, as Python's `str(n)`. */
  function NatToString(n: nat): (s: string)
    ensures s != [] && AllDigits(s) && DigitsValue(s) == n
  {
    if n < 10 then [DigitChar(n)]
    else
      var s := NatToString(n / 10) + [DigitChar(n % 10)];
      assert s[..|s| - 1] == NatToString(n / 10);
      s
  }

  /** Decimal rendering of an integer, as Python's `str(n)`. */
  function IntToString(n: int): string {
    if n < 0 then "-" + NatToString(-n) else NatToString(n)
  }

  /** `int(str(n)) == n`: every identifier an admin copies from the bot's output parses back. */
  lemma ParseIntToString(n: int)
    ensures ParseInt(IntToString(n)) == Some(n)
  {
    if n < 0 {
      assert IntToString(n)[1..] == NatToString(-n);
    }
  }

  /** With the handlers' own `strip()`, padding around a decimal number does not matter. */
  lemma ParsePaddedInt(pre: string, n: int, post: string)
    requires AllSpace(pre) && AllSpace(post)
    ensures ParseInt(Strip(pre + IntToString(n) + post)) == Some(n)
  {
    var s := IntToString(n);
    assert s[0] == '-' || IsDigit(s[0]);
    assert IsDigit(s[|s| - 1]);
    StripPadded(pre, s, post);
    ParseIntToString(n);
  }

  /** A stripped text holding any character other than a sign or a digit is rejected. */
  lemma ParseRejectsOtherCharacters(s: string, k: nat)
    requires k < |s| && !IsDigit(s[k]) && s[k] != '+' && s[k] != '-'
    ensures ParseInt(s) == None
  {
  }
}
