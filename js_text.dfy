/** The pieces of JavaScript string semantics the handlers rely on:
    `String.prototype.trim`, the regular-expression class `\s`, ASCII case
    folding, `String.prototype.length` (UTF-16 code units), substring search,
    `Number.prototype.toString()` of a non-negative integer and the global
    `parseInt` without a radix argument. A JavaScript string is modelled as a
    sequence of Unicode scalar values. */
module JsText {
  import opened Common

  /** The characters `trim()` strips and `\s` matches: the WhiteSpace set
      (tab, vertical tab, form feed, the space separators of category Zs and
      the byte order mark) together with the LineTerminator set. */
  predicate IsWhitespace(c: char) {
    || c == '\t' || c == '\n' || c == '\U{B}' || c == '\U{C}' || c == '\r'
    || c == ' ' || c == '\U{A0}' || c == '\U{1680}'
    || ('\U{2000}' <= c <= '\U{200A}')
    || c == '\U{2028}' || c == '\U{2029}' || c == '\U{202F}' || c == '\U{205F}'
    || c == '\U{3000}' || c == '\U{FEFF}'
  }

  predicate AllWhitespace(s: string) {
    forall i | 0 <= i < |s| :: IsWhitespace(s[i])
  }

  /** `s` with its leading whitespace removed. */
  function TrimStart(s: string): (r: string)
    ensures |r| <= |s| && r == s[|s| - |r|..]
    ensures r == [] || !IsWhitespace(r[0])
    ensures AllWhitespace(s[..|s| - |r|])
  {
    if s != [] && IsWhitespace(s[0]) then
      var r := TrimStart(s[1..]);
      assert forall i | 1 <= i < |s| - |r| :: s[i] == s[1..][..|s| - 1 - |r|][i - 1];
      r
    else s
  }

  /** `s` with its trailing whitespace removed. */
  function TrimEnd(s: string): (r: string)
    ensures |r| <= |s| && r == s[..|r|]
    ensures r == [] || !IsWhitespace(r[|r| - 1])
    ensures AllWhitespace(s[|r|..])
  {
    if s != [] && IsWhitespace(s[|s| - 1]) then
      var r := TrimEnd(s[..|s| - 1]);
      assert forall i | |r| <= i < |s| - 1 :: s[i] == s[..|s| - 1][|r|..][i - |r|];
      r
    else s
  }

  /** `r` is what is left of `s` once a run of `k` whitespace characters in
      front and a run of whitespace characters behind are taken off. */
  ghost predicate TrimmedAt(s: string, r: string, k: int) {
    0 <= k <= |s| - |r| && s[k..k + |r|] == r
    && AllWhitespace(s[..k]) && AllWhitespace(s[k + |r|..])
  }

  /** `String.prototype.trim`: the result is the part of `s` between a run of
      leading and a run of trailing whitespace, and it neither starts nor ends
      with whitespace. */
  function Trim(s: string): (r: string)
    ensures r == [] || (!IsWhitespace(r[0]) && !IsWhitespace(r[|r| - 1]))
    ensures TrimmedAt(s, r, |s| - |TrimStart(s)|)
  {
    var t := TrimStart(s);
    var r := TrimEnd(t);
    TrimmedBetween(s, t, r);
    r
  }

  /** A suffix of `s` after whitespace, cut before whitespace, is trimmed. */
  lemma TrimmedBetween(s: string, t: string, r: string)
    requires |t| <= |s| && t == s[|s| - |t|..] && AllWhitespace(s[..|s| - |t|])
    requires |r| <= |t| && r == t[..|r|] && AllWhitespace(t[|r|..])
    ensures TrimmedAt(s, r, |s| - |t|)
  {
    var k := |s| - |t|;
    assert s[k..k + |r|] == t[..|r|];
    assert s[k + |r|..] == t[|r|..];
  }

  /** Only a string made of whitespace trims to the empty string. */
  lemma TrimEmpty(s: string)
    ensures Trim(s) == [] <==> AllWhitespace(s)
  {
    var k := |s| - |TrimStart(s)|;
    if Trim(s) == [] {
      forall i | 0 <= i < |s| ensures IsWhitespace(s[i]) {
        assert s[..k][i] == s[i];
      }
    }
  }

  /** Trimming twice is the same as trimming once. */
  lemma TrimIdempotent(s: string)
    ensures Trim(Trim(s)) == Trim(s)
  {
    var r := Trim(s);
    if r != [] {
      assert TrimStart(r) == r;
      assert TrimEnd(r) == r;
    }
  }

  predicate IsAsciiUpper(c: char) { 'A' <= c <= 'Z' }

  predicate IsAsciiLetter(c: char) { 'A' <= c <= 'Z' || 'a' <= c <= 'z' }

  /** The regular-expression class `\d`: the ASCII digits only. */
  predicate IsDigit(c: char) { '0' <= c <= '9' }

  function LowerChar(c: char): char {
    if IsAsciiUpper(c) then (c as int + 32) as char else c
  }

  /** Case folding of the ASCII letters, leaving every other character as it is. */
  function ToLowerAscii(s: string): string {
    seq(|s|, i requires 0 <= i < |s| => LowerChar(s[i]))
  }

  /** Case-insensitive equality as a regular expression with the `i` flag and
      without the `u` flag applies it: a non-ASCII character never matches an
      ASCII one, so only ASCII letters fold. */
  predicate EqualsIgnoreCase(a: string, b: string) {
    ToLowerAscii(a) == ToLowerAscii(b)
  }

  predicate StartsWithIgnoreCase(s: string, prefix: string) {
    |prefix| <= |s| && EqualsIgnoreCase(s[..|prefix|], prefix)
  }

  predicate EndsWithIgnoreCase(s: string, suffix: string) {
    |suffix| <= |s| && EqualsIgnoreCase(s[|s| - |suffix|..], suffix)
  }

  /** `String.prototype.length`: the number of UTF-16 code units, two for each
      character outside the Basic Multilingual Plane. */
  function Utf16Length(s: string): (n: nat)
    ensures |s| <= n <= 2 * |s|
    ensures n == |s| <==> forall i | 0 <= i < |s| :: s[i] as int <= 0xFFFF
    ensures |s| == 1 ==> n == if s[0] as int > 0xFFFF then 2 else 1
  {
    if s == [] then 0
    else
      var last := if s[|s| - 1] as int > 0xFFFF then 2 else 1;
      var n := Utf16Length(s[..|s| - 1]) + last;
      assert forall i | 0 <= i < |s| - 1 :: s[..|s| - 1][i] == s[i];
      n
  }

  /** The code units of a concatenation are those of its parts, so with the
      one-character case above the length is fixed character by character. */
  lemma {:induction false} Utf16LengthConcat(a: string, b: string)
    ensures Utf16Length(a + b) == Utf16Length(a) + Utf16Length(b)
    decreases |b|
  {
    if b == [] {
      assert a + b == a;
    } else {
      var b' := b[..|b| - 1];
      assert (a + b)[..|a + b| - 1] == a + b';
      assert (a + b)[|a + b| - 1] == b[|b| - 1];
      Utf16LengthConcat(a, b');
    }
  }

  /** The positions of the characters outside the Basic Multilingual Plane. */
  function Supplementary(s: string): set<int> {
    set i | 0 <= i < |s| && s[i] as int > 0xFFFF
  }

  /** `length` is the number of characters plus one for each character that
      needs a surrogate pair. */
  lemma {:induction false} Utf16LengthCount(s: string)
    ensures Utf16Length(s) == |s| + |Supplementary(s)|
  {
    if s == [] {
      assert Supplementary(s) == {};
    } else {
      var t := s[..|s| - 1];
      Utf16LengthCount(t);
      var last := |s| - 1;
      assert forall i | 0 <= i < |t| :: t[i] == s[i];
      if s[last] as int > 0xFFFF {
        assert Supplementary(s) == Supplementary(t) + {last};
        assert last !in Supplementary(t);
      } else {
        assert Supplementary(s) == Supplementary(t);
      }
    }
  }

  /** `t` occurs in `s` starting at index `i`. */
  ghost predicate OccursAt(s: string, t: string, i: int) {
    0 <= i <= |s| - |t| && s[i..i + |t|] == t
  }

  lemma TailSlice(s: string, i: int, j: int)
    requires 1 <= i <= j <= |s|
    ensures s[1..][i - 1..j - 1] == s[i..j]
  {
    assert forall k | i <= k < j :: s[1..][i - 1..j - 1][k - i] == s[k];
  }

  /** `s` contains `t` as a contiguous substring. */
  function Contains(s: string, t: string): (b: bool)
    ensures b <==> exists i :: OccursAt(s, t, i)
    decreases |s|
  {
    if |t| > |s| then false
    else if s[..|t|] == t then assert OccursAt(s, t, 0); true
    else
      var b := Contains(s[1..], t);
      assert b ==> exists i :: OccursAt(s, t, i) by {
        if b {
          var i :| OccursAt(s[1..], t, i);
          TailSlice(s, i + 1, i + 1 + |t|);
          assert OccursAt(s, t, i + 1);
        }
      }
      assert !OccursAt(s, t, 0);
      forall i | 0 < i && OccursAt(s, t, i) ensures OccursAt(s[1..], t, i - 1) {
        TailSlice(s, i, i + |t|);
      }
      b
  }

  // ---------------------------------------------------------------------
  // Decimal and hexadecimal digits
  // ---------------------------------------------------------------------

  predicate IsRadixDigit(c: char, radix: nat) {
    if radix == 16 then IsDigit(c) || 'a' <= c <= 'f' || 'A' <= c <= 'F' else IsDigit(c)
  }

  function DigitValue(c: char): (d: nat)
    requires IsRadixDigit(c, 16)
    ensures d < 16
    ensures IsDigit(c) ==> d < 10
  {
    if IsDigit(c) then c as int - '0' as int
    else if 'a' <= c <= 'f' then c as int - 'a' as int + 10
    else c as int - 'A' as int + 10
  }

  function DigitChar(d: nat): (c: char)
    requires d < 10
    ensures IsDigit(c) && DigitValue(c) == d
  {
    ('0' as int + d) as char
  }

  predicate AllRadixDigits(s: string, radix: nat) {
    forall i | 0 <= i < |s| :: IsRadixDigit(s[i], radix)
  }

  /** The number written by the digits `d` in base `radix`, most significant first. */
  function DigitsValue(d: string, radix: nat): nat
    requires radix == 10 || radix == 16
    requires AllRadixDigits(d, radix)
  {
    if d == [] then 0
    else DigitsValue(d[..|d| - 1], radix) * radix + DigitValue(d[|d| - 1])
  }

  /** The longest prefix of `s` made of base-`radix` digits. */
  function DigitsPrefix(s: string, radix: nat): (r: string)
    ensures |r| <= |s| && r == s[..|r|]
    ensures AllRadixDigits(r, radix)
    ensures |r| == |s| || !IsRadixDigit(s[|r|], radix)
  {
    if s == [] || !IsRadixDigit(s[0], radix) then []
    else [s[0]] + DigitsPrefix(s[1..], radix)
  }

  /** `Number.prototype.toString()` of a non-negative integer: its decimal
      digits without leading zeros. */
  function NatToString(n: nat): (r: string)
    ensures |r| >= 1 && AllRadixDigits(r, 10)
    ensures r[0] == '0' ==> n == 0
  {
    if n < 10 then [DigitChar(n)] else NatToString(n / 10) + [DigitChar(n % 10)]
  }

  function Pow10(k: nat): (p: nat)
    ensures p >= 1
  {
    if k == 0 then 1 else 10 * Pow10(k - 1)
  }

  /** Reading back the digits of `n` gives `n`. */
  lemma {:induction false} NatToStringValue(n: nat)
    ensures DigitsValue(NatToString(n), 10) == n
  {
    if n >= 10 {
      NatToStringValue(n / 10);
      var s := NatToString(n);
      assert s[..|s| - 1] == NatToString(n / 10);
    }
  }

  /** A number with `k` decimal digits is written with exactly `k` characters. */
  lemma {:induction false} NatToStringLength(n: nat, k: nat)
    requires 1 <= k
    requires k == 1 || Pow10(k - 1) <= n
    requires n < Pow10(k)
    ensures |NatToString(n)| == k
  {
    if k > 1 {
      if k == 2 {
        assert 1 <= n / 10 < 10;
      } else {
        assert Pow10(k - 1) == 10 * Pow10(k - 2);
        assert Pow10(k - 2) <= n / 10;
      }
      NatToStringLength(n / 10, k - 1);
    } else {
      assert n < 10;
    }
  }

  // ---------------------------------------------------------------------
  // parseInt
  // ---------------------------------------------------------------------

  /** The digits after the sign: a `0x` or `0X` prefix selects base 16, and
      the longest run of digits that follows is converted; `None` when that
      run is empty. */
  function ParseUnsigned(u: string): Option<nat> {
    var hex := |u| >= 2 && u[0] == '0' && (u[1] == 'x' || u[1] == 'X');
    var radix := if hex then 16 else 10;
    var d := DigitsPrefix(if hex then u[2..] else u, radix);
    if d == [] then None else Some(DigitsValue(d, radix))
  }

  /** The global `parseInt(s)` with no radix: leading whitespace is skipped,
      one optional sign is read and the digits after it are converted, the
      rest of the string being ignored. `None` stands for NaN. */
  function ParseInt(s: string): Option<int> {
    var t := TrimStart(s);
    if |t| > 0 && (t[0] == '-' || t[0] == '+') then
      match ParseUnsigned(t[1..])
      case None => None
      case Some(v) => Some(if t[0] == '-' then 0 - v else v)
    else
      match ParseUnsigned(t)
      case None => None
      case Some(v) => Some(v)
  }

  /** A request parameter that is absent converts to the string "undefined",
      which `parseInt` reads as NaN. */
  function ParseIntParam(p: Option<string>): Option<int> {
    match p
    case None => None
    case Some(s) => ParseInt(s)
  }

  lemma DigitsPrefixOfDigits(d: string, t: string)
    requires AllRadixDigits(d, 10)
    requires t == [] || !IsDigit(t[0])
    ensures DigitsPrefix(d + t, 10) == d
  {
    if d != [] {
      assert (d + t)[1..] == d[1..] + t;
      DigitsPrefixOfDigits(d[1..], t);
    } else {
      assert d + t == t;
    }
  }

  lemma ParseUnsignedOfDecimal(n: nat, tail: string)
    requires tail == [] || !IsDigit(tail[0])
    requires n == 0 ==> tail == [] || (tail[0] != 'x' && tail[0] != 'X')
    ensures ParseUnsigned(NatToString(n) + tail) == Some(n)
  {
    var d := NatToString(n);
    var u := d + tail;
    if |u| >= 2 && u[0] == '0' {
      assert d[0] == '0';
      assert u[1] == tail[0];
    }
    DigitsPrefixOfDigits(d, tail);
    NatToStringValue(n);
  }

  /** `parseInt` reads back the decimal representation of a non-negative
      integer, whatever non-digit text follows it (unless that text turns a
      leading `0` into a hexadecimal prefix). */
  lemma ParseIntOfDecimal(n: nat, tail: string)
    requires tail == [] || !IsDigit(tail[0])
    requires n == 0 ==> tail == [] || (tail[0] != 'x' && tail[0] != 'X')
    ensures ParseInt(NatToString(n) + tail) == Some(n)
  {
    var d := NatToString(n);
    assert IsRadixDigit(d[0], 10);
    assert (d + tail)[0] == d[0];
    ParseIntOfDigit(d + tail);
    ParseUnsignedOfDecimal(n, tail);
  }

  /** A string that starts with a digit is read without whitespace or sign. */
  lemma ParseIntOfDigit(s: string)
    requires s != [] && IsDigit(s[0])
    ensures ParseInt(s) == ParseUnsigned(s)
  {
    assert !IsWhitespace(s[0]);
    assert TrimStart(s) == s;
    assert s[0] != '-' && s[0] != '+';
  }

  /** `parseInt` reads a minus sign in front of the digits. */
  lemma ParseIntOfNegative(n: nat)
    ensures ParseInt("-" + NatToString(n)) == Some(-(n as int))
  {
    var d := NatToString(n);
    var s := "-" + d;
    assert s[0] == '-';
    assert TrimStart(s) == s;
    assert s[1..] == d + [];
    ParseUnsignedOfDecimal(n, []);
  }
}
