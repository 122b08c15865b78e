/**
 * The few pieces of `java.lang` the core relies on: `String.trim`,
 * `String.isBlank`, `String.length`, `Integer.parseInt`, `Integer.toString`
 * and `System.getenv`.
 *
 * A Java `String` is a sequence of UTF-16 code units, a Dafny `string` a
 * sequence of Unicode scalar values; `Utf16Length` gives back the Java length.
 */
module JavaLang {
  import opened Wrappers

  /** The process environment, as returned by `System.getenv()`. */
  type Env = map<string, string>

  /** `System.getenv(key)`: `None` (Java `null`) when the variable is unset. */
  function Getenv(env: Env, key: string): (r: Option<string>)
    ensures r.Some? <==> key in env
    ensures r.Some? ==> r.value == env[key]
  {
    if key in env then Some(env[key]) else None
  }

  // ---------------------------------------------------------------- int32

  const Int32Min: int := -0x8000_0000
  const Int32Max: int := 0x7FFF_FFFF

  predicate InInt32(n: int) {
    Int32Min <= n <= Int32Max
  }

  // ---------------------------------------------------------------- characters

  /** The characters accepted as digits by `parseInt` in this model (ASCII only). */
  predicate IsAsciiDigit(c: char) {
    '0' <= c <= '9'
  }

  predicate IsSign(c: char) {
    c == '+' || c == '-'
  }

  predicate AllDigits(s: string) {
    forall i :: 0 <= i < |s| ==> IsAsciiDigit(s[i])
  }

  function DigitValue(c: char): (d: nat)
    requires IsAsciiDigit(c)
    ensures d < 10
  {
    (c as int) - ('0' as int)
  }

  function DigitChar(d: nat): (c: char)
    requires d < 10
    ensures IsAsciiDigit(c) && DigitValue(c) == d
  {
    (('0' as int) + d) as char
  }

  /**
   * `Character.isWhitespace`: the Unicode space, line and paragraph separators
   * except the three non-breaking spaces, plus U+0009..U+000D and U+001C..U+001F.
   */
  predicate IsWhitespace(c: char) {
    var n := c as int;
    (0x09 <= n <= 0x0D) || (0x1C <= n <= 0x20) || n == 0x1680 ||
    (0x2000 <= n <= 0x2006) || (0x2008 <= n <= 0x200A) ||
    n == 0x2028 || n == 0x2029 || n == 0x205F || n == 0x3000
  }

  /** `String.isBlank`: empty, or nothing but `Character.isWhitespace` characters. */
  predicate IsBlank(s: string) {
    forall i :: 0 <= i < |s| ==> IsWhitespace(s[i])
  }

  /** No whitespace character is a digit or a sign. */
  lemma WhitespaceIsNotNumeric(c: char)
    requires IsWhitespace(c)
    ensures !IsAsciiDigit(c) && !IsSign(c)
  {
  }

  // ---------------------------------------------------------------- String.length

  /** `String.length()`: characters outside the Basic Multilingual Plane take two code units. */
  function Utf16Length(s: string): (n: nat)
    ensures |s| <= n <= 2 * |s|
    ensures (forall i :: 0 <= i < |s| ==> s[i] as int <= 0xFFFF) ==> n == |s|
    ensures |s| == 1 ==> n == (if s[0] as int > 0xFFFF then 2 else 1)
  {
    if |s| == 0 then 0
    else (if s[0] as int > 0xFFFF then 2 else 1) + Utf16Length(s[1..])
  }

  /** The length of a concatenation is the sum of the lengths, so each character counts on its own. */
  lemma {:induction false} Utf16LengthConcat(a: string, b: string)
    ensures Utf16Length(a + b) == Utf16Length(a) + Utf16Length(b)
  {
    if a == [] {
      assert a + b == b;
    } else {
      assert (a + b)[0] == a[0];
      assert (a + b)[1..] == a[1..] + b;
      Utf16LengthConcat(a[1..], b);
    }
  }

  // ---------------------------------------------------------------- String.trim

  /** `String.trim` removes every code unit at or below U+0020 from both ends. */
  predicate IsTrimmed(c: char) {
    c <= ' '
  }

  /** Index of the first character at or after `from` that `trim` keeps, or `|s|`. */
  function SkipLeading(s: string, from: nat): (k: nat)
    requires from <= |s|
    ensures from <= k <= |s|
    ensures forall i :: from <= i < k ==> IsTrimmed(s[i])
    ensures k < |s| ==> !IsTrimmed(s[k])
    decreases |s| - from
  {
    if from < |s| && IsTrimmed(s[from]) then SkipLeading(s, from + 1) else from
  }

  /** One past the last character below `high` and at or after `low` that `trim` keeps, or `low`. */
  function SkipTrailing(s: string, low: nat, high: nat): (k: nat)
    requires low <= high <= |s|
    ensures low <= k <= high
    ensures forall i :: k <= i < high ==> IsTrimmed(s[i])
    ensures low < k ==> !IsTrimmed(s[k - 1])
    decreases high
  {
    if low < high && IsTrimmed(s[high - 1]) then SkipTrailing(s, low, high - 1) else high
  }

  /**
   * The bounds `[lo, hi)` of the trimmed text: everything outside them is
   * stripped, and the characters at both ends inside them are kept.
   */
  function TrimBounds(s: string): (b: (nat, nat))
    ensures b.0 <= b.1 <= |s|
    ensures forall i :: 0 <= i < b.0 ==> IsTrimmed(s[i])
    ensures forall i :: b.1 <= i < |s| ==> IsTrimmed(s[i])
    ensures b.0 < b.1 ==> !IsTrimmed(s[b.0]) && !IsTrimmed(s[b.1 - 1])
  {
    var lo := SkipLeading(s, 0);
    var hi := SkipTrailing(s, lo, |s|);
    assert lo < |s| ==> lo < hi;
    (lo, hi)
  }

  /** `String.trim()` */
  function Trim(s: string): (r: string)
    ensures |r| <= |s|
    ensures r == [] || (!IsTrimmed(r[0]) && !IsTrimmed(r[|r| - 1]))
    ensures r == [] <==> forall i :: 0 <= i < |s| ==> IsTrimmed(s[i])
  {
    var b := TrimBounds(s);
    s[b.0..b.1]
  }

  /** The characterisation in `TrimBounds` pins the bounds down when some character is kept. */
  lemma TrimBoundsDetermined(s: string, lo: nat, hi: nat)
    requires lo < hi <= |s|
    requires forall i :: 0 <= i < lo ==> IsTrimmed(s[i])
    requires forall i :: hi <= i < |s| ==> IsTrimmed(s[i])
    requires !IsTrimmed(s[lo]) && !IsTrimmed(s[hi - 1])
    ensures TrimBounds(s) == (lo, hi)
  {
  }

  /** Surrounding characters at or below U+0020 make no difference to `trim`. */
  lemma TrimPadded(pre: string, s: string, post: string)
    requires forall i :: 0 <= i < |pre| ==> IsTrimmed(pre[i])
    requires forall i :: 0 <= i < |post| ==> IsTrimmed(post[i])
    ensures Trim(pre + s + post) == Trim(s)
  {
    var (c, d) := TrimBounds(s);
    if c < d {
      TrimPaddedKept(pre, s, post, c, d);
    } else {
      TrimPaddedBlank(pre, s, post);
    }
  }

  lemma TrimPaddedKept(pre: string, s: string, post: string, c: nat, d: nat)
    requires forall i :: 0 <= i < |pre| ==> IsTrimmed(pre[i])
    requires forall i :: 0 <= i < |post| ==> IsTrimmed(post[i])
    requires (c, d) == TrimBounds(s) && c < d
    ensures Trim(pre + s + post) == s[c..d]
  {
    var t := pre + s + post;
    PaddedOutside(pre, s, post, c, d);
    TrimBoundsDetermined(t, |pre| + c, |pre| + d);
    PaddedSlice(pre, s, post, c, d);
  }

  lemma PaddedSlice(pre: string, s: string, post: string, c: nat, d: nat)
    requires c <= d <= |s|
    ensures (pre + s + post)[|pre| + c..|pre| + d] == s[c..d]
  {
    var t := pre + s + post;
    assert t[|pre|..|pre| + |s|] == s;
    assert t[|pre| + c..|pre| + d] == t[|pre|..|pre| + |s|][c..d];
  }

  /** What `trim` strips around `s[c..d]` is still stripped inside `pre + s + post`. */
  lemma PaddedOutside(pre: string, s: string, post: string, c: nat, d: nat)
    requires forall i :: 0 <= i < |pre| ==> IsTrimmed(pre[i])
    requires forall i :: 0 <= i < |post| ==> IsTrimmed(post[i])
    requires c < d <= |s|
    requires forall i :: 0 <= i < c ==> IsTrimmed(s[i])
    requires forall i :: d <= i < |s| ==> IsTrimmed(s[i])
    requires !IsTrimmed(s[c]) && !IsTrimmed(s[d - 1])
    ensures forall i :: 0 <= i < |pre| + c ==> IsTrimmed((pre + s + post)[i])
    ensures forall i :: |pre| + d <= i < |pre + s + post| ==> IsTrimmed((pre + s + post)[i])
    ensures !IsTrimmed((pre + s + post)[|pre| + c]) && !IsTrimmed((pre + s + post)[|pre| + d - 1])
  {
    var t := pre + s + post;
    forall i | 0 <= i < |pre| + c ensures IsTrimmed(t[i]) {
      if i >= |pre| { assert t[i] == s[i - |pre|]; }
    }
    forall i | |pre| + d <= i < |t| ensures IsTrimmed(t[i]) {
      if i < |pre| + |s| { assert t[i] == s[i - |pre|]; }
      else { assert t[i] == post[i - |pre| - |s|]; }
    }
    assert t[|pre| + c] == s[c] && t[|pre| + d - 1] == s[d - 1];
  }

  lemma TrimPaddedBlank(pre: string, s: string, post: string)
    requires forall i :: 0 <= i < |pre| ==> IsTrimmed(pre[i])
    requires forall i :: 0 <= i < |post| ==> IsTrimmed(post[i])
    requires forall i :: 0 <= i < |s| ==> IsTrimmed(s[i])
    ensures Trim(pre + s + post) == []
  {
    var t := pre + s + post;
    forall i | 0 <= i < |t| ensures IsTrimmed(t[i]) {
      if |pre| <= i < |pre| + |s| { assert t[i] == s[i - |pre|]; }
      else if i >= |pre| + |s| { assert t[i] == post[i - |pre| - |s|]; }
    }
  }

  /** Text that already starts and ends with a kept character is its own trim. */
  lemma TrimKeepsTrimmedText(s: string)
    requires s == [] || (!IsTrimmed(s[0]) && !IsTrimmed(s[|s| - 1]))
    ensures Trim(s) == s
  {
    var (a, b) := TrimBounds(s);
    if s != [] {
      assert a == 0 && b == |s|;
    }
  }

  /** Trimming is idempotent. */
  lemma TrimIdempotent(s: string)
    ensures Trim(Trim(s)) == Trim(s)
  {
    TrimKeepsTrimmedText(Trim(s));
  }

  // ---------------------------------------------------------------- Integer.parseInt

  /** Value of a run of decimal digits, most significant first. */
  function DigitsValue(s: string): nat
    requires AllDigits(s)
  {
    if |s| == 0 then 0 else DigitsValue(s[..|s| - 1]) * 10 + DigitValue(s[|s| - 1])
  }

  /**
   * `Integer.parseInt(s)` in radix 10, `None` where it throws
   * `NumberFormatException`: an optional single `+` or `-`, at least one digit,
   * nothing else (no surrounding whitespace), and a value inside the int32 range.
   */
  function ParseInt(s: string): (r: Option<int>)
    ensures r.Some? ==> InInt32(r.value)
    ensures r.Some? ==> |s| > 0 && forall i :: 0 <= i < |s| ==> IsAsciiDigit(s[i]) || (i == 0 && IsSign(s[i]))
    ensures r.Some? ==> exists k :: 0 <= k < |s| && IsAsciiDigit(s[k])
  {
    if |s| == 0 then None
    else if IsSign(s[0]) then
      var r := ParseMagnitude(s[1..], s[0] == '-');
      assert r.Some? ==> IsAsciiDigit(s[|s| - 1]) by {
        if r.Some? {
          assert s[|s| - 1] == s[1..][|s| - 2];
        }
      }
      r
    else ParseMagnitude(s, false)
  }

  /** The unsigned part of `parseInt`: at least one digit, and the signed value inside the int32 range. */
  function ParseMagnitude(digits: string, negative: bool): (r: Option<int>)
    ensures r.Some? ==> InInt32(r.value) && |digits| > 0 && AllDigits(digits)
  {
    if |digits| == 0 || !AllDigits(digits) then None
    else
      var magnitude: int := DigitsValue(digits);
      var v := if negative then -magnitude else magnitude;
      if InInt32(v) then Some(v) else None
  }

  /**
   * The value `parseInt` gives a well-formed literal: an optional `+` or `-`
   * and at least one digit parse to their value when it is in the int32
   * range, and throw otherwise.
   */
  lemma ParseIntValue(sign: string, digits: string)
    requires sign == "" || sign == "+" || sign == "-"
    requires |digits| > 0 && AllDigits(digits)
    ensures var v: int := if sign == "-" then -(DigitsValue(digits) as int) else DigitsValue(digits);
      ParseInt(sign + digits) == if InInt32(v) then Some(v) else None
  {
    if sign == "" {
      assert sign + digits == digits;
      assert IsAsciiDigit(digits[0]);
    } else {
      ParseIntSigned(sign[0], digits);
      assert sign == [sign[0]];
    }
  }

  /** A leading sign leaves the digits after it to `ParseMagnitude`, negated for `-`. */
  lemma ParseIntSigned(c: char, digits: string)
    requires IsSign(c)
    ensures ParseInt([c] + digits) == ParseMagnitude(digits, c == '-')
  {
    var s := [c] + digits;
    assert s[0] == c;
    assert s[1..] == digits;
  }

  /** A value that is empty, or starts or ends with whitespace, never parses. */
  lemma ParseIntRejectsPadding(s: string)
    requires s == [] || s[0] <= ' ' || s[|s| - 1] <= ' '
    ensures ParseInt(s) == None
  {
  }

  /** A blank value (as `isBlank` sees it) never parses. */
  lemma ParseIntRejectsBlank(s: string)
    requires IsBlank(s)
    ensures ParseInt(s) == None
  {
    if ParseInt(s).Some? {
      WhitespaceIsNotNumeric(s[0]);
    }
  }

  // ---------------------------------------------------------------- Integer.toString

  /** Decimal digits of `n`, with no leading zero: `"0"` for 0. */
  function ShowNat(n: nat): (s: string)
    ensures |s| > 0 && AllDigits(s) && DigitsValue(s) == n
    ensures n > 0 ==> s[0] != '0'
    ensures n == 0 ==> s == "0"
  {
    if n < 10 then [DigitChar(n)]
    else
      var prefix := ShowNat(n / 10);
      var s := prefix + [DigitChar(n % 10)];
      assert s[..|s| - 1] == prefix;
      s
  }

  /** `Integer.toString(n)` (and `String.valueOf(n)`). */
  function ShowInt(n: int): (s: string)
    ensures |s| > 0 && (s[0] == '-' <==> n < 0)
    ensures n < 0 ==> AllDigits(s[1..]) && DigitsValue(s[1..]) == -n
    ensures n >= 0 ==> AllDigits(s) && DigitsValue(s) == n
    ensures n != 0 ==> s[if n < 0 then 1 else 0] != '0'
    ensures n == 0 ==> s == "0"
  {
    if n < 0 then
      var digits := ShowNat(-n);
      assert ("-" + digits)[1..] == digits;
      "-" + digits
    else ShowNat(n)
  }

  /** `Integer.parseInt(Integer.toString(n)) == n` for every int32 `n`. */
  lemma ParseShowRoundTrip(n: int)
    requires InInt32(n)
    ensures ParseInt(ShowInt(n)) == Some(n)
  {
    var s := ShowInt(n);
    var digits := ShowNat(if n < 0 then -n else n);
    if n < 0 {
      assert s[0] == '-' && s[1..] == digits;
    } else {
      assert !IsSign(s[0]);
    }
  }
}
