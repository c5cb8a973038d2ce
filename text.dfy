/**
 * String operations of the Kotlin standard library that the aggregator relies on:
 * a case-insensitive prefix test (`startsWith(prefix, ignoreCase = true)`),
 * `String.replace(old, new)` and the decimal rendering of a `Long` inside a
 * string template.
 */
module Text {

  /** ASCII upper-casing of one character; other characters are left alone. */
  function UpperAscii(c: char): char {
    if 'a' <= c <= 'z' then (c as int - 32) as char else c
  }

  /** ASCII lower-casing of one character; other characters are left alone. */
  function LowerAscii(c: char): char {
    if 'A' <= c <= 'Z' then (c as int + 32) as char else c
  }

  /** Character comparison as `Char.equals(other, ignoreCase = true)`: equal, or equal once upper-cased. */
  predicate CharEqualsIgnoreCase(a: char, b: char) {
    a == b || UpperAscii(a) == UpperAscii(b)
  }

  /** `s.startsWith(prefix, ignoreCase = true)`: the first |prefix| characters match ignoring case. */
  predicate StartsWithIgnoreCase(s: string, prefix: string) {
    |prefix| <= |s| && forall i :: 0 <= i < |prefix| ==> CharEqualsIgnoreCase(s[i], prefix[i])
  }

  /** Two characters match ignoring case exactly when their lower-case forms are equal. */
  lemma CharEqualsIgnoreCaseIsLowerEquality(a: char, b: char)
    ensures CharEqualsIgnoreCase(a, b) <==> LowerAscii(a) == LowerAscii(b)
  {
  }

  /** `p` occurs in `s` starting at index `i`. */
  predicate OccursAt(s: string, p: string, i: nat) {
    i + |p| <= |s| && s[i..i + |p|] == p
  }

  /** `p` occurs somewhere in `s`. */
  predicate Contains(s: string, p: string) {
    exists i: nat | i <= |s| :: OccursAt(s, p, i)
  }

  /**
   * `s.replace(pattern, replacement)`: scanning from the left, every occurrence of
   * `pattern` is replaced and scanning resumes after it, so occurrences never overlap
   * and the replacement text is never scanned again.
   */
  function ReplaceAll(s: string, pattern: string, replacement: string): string
    requires |pattern| > 0
    decreases |s|
  {
    if |s| == 0 then ""
    else if pattern <= s then replacement + ReplaceAll(s[|pattern|..], pattern, replacement)
    else [s[0]] + ReplaceAll(s[1..], pattern, replacement)
  }

  /** Replacing a pattern that does not occur leaves the string unchanged. */
  lemma {:induction false} ReplaceAbsent(s: string, pattern: string, replacement: string)
    requires |pattern| > 0
    requires !Contains(s, pattern)
    ensures ReplaceAll(s, pattern, replacement) == s
    decreases |s|
  {
    if |s| > 0 {
      assert !OccursAt(s, pattern, 0);
      assert !(pattern <= s);
      forall i: nat | i <= |s[1..]| ensures !OccursAt(s[1..], pattern, i) {
        assert !OccursAt(s, pattern, i + 1);
      }
      ReplaceAbsent(s[1..], pattern, replacement);
    }
  }

  /**
   * When no occurrence of the pattern starts inside `a`, the replacement works on
   * `a` and on `b` independently.
   */
  lemma {:induction false} ReplaceSplit(a: string, b: string, pattern: string, replacement: string)
    requires |pattern| > 0
    requires forall i: nat :: i < |a| ==> !(pattern <= (a + b)[i..])
    ensures ReplaceAll(a + b, pattern, replacement)
         == ReplaceAll(a, pattern, replacement) + ReplaceAll(b, pattern, replacement)
    decreases |a|
  {
    if |a| > 0 {
      assert !(pattern <= (a + b)[0..]);
      assert (a + b)[0..] == a + b;
      assert (a + b)[1..] == a[1..] + b;
      forall i: nat | i < |a[1..]| ensures !(pattern <= (a[1..] + b)[i..]) {
        assert (a[1..] + b)[i..] == (a + b)[i + 1..];
      }
      assert !(pattern <= a);
      ReplaceSplit(a[1..], b, pattern, replacement);
    } else {
      assert a + b == b;
    }
  }

  /**
   * Replacing a one-character pattern by one character maps the string position by
   * position: the pattern character becomes the replacement, every other character stays.
   */
  lemma {:induction false} ReplaceCharPointwise(s: string, c: char, d: char)
    ensures |ReplaceAll(s, [c], [d])| == |s|
    ensures forall i :: 0 <= i < |s| ==> ReplaceAll(s, [c], [d])[i] == (if s[i] == c then d else s[i])
    decreases |s|
  {
    if |s| > 0 {
      ReplaceCharPointwise(s[1..], c, d);
      var head := if s[0] == c then d else s[0];
      assert [c] <= s <==> s[0] == c;
      assert ReplaceAll(s, [c], [d]) == [head] + ReplaceAll(s[1..], [c], [d]);
    }
  }

  /** Decimal digit character of a value below ten. */
  function DigitChar(d: nat): (c: char)
    requires d < 10
    ensures '0' <= c <= '9' && c as int - '0' as int == d
  {
    (d + '0' as int) as char
  }

  /** True when every character of `s` is a decimal digit. */
  predicate AllDigits(s: string) {
    forall i :: 0 <= i < |s| ==> '0' <= s[i] <= '9'
  }

  /** Decimal rendering of a natural number, most significant digit first, without leading zeros. */
  function NatToDecimal(n: nat): (r: string)
    ensures |r| > 0 && AllDigits(r)
    ensures |r| > 1 ==> r[0] != '0'
    decreases n
  {
    if n < 10 then [DigitChar(n)] else NatToDecimal(n / 10) + [DigitChar(n % 10)]
  }

  /** `Long.toString()` as a string template renders it: a minus sign before the digits of a negative value. */
  function LongToString(n: int): (r: string)
    ensures |r| > 0
    ensures n >= 0 ==> AllDigits(r)
    ensures n < 0 ==> r[0] == '-' && AllDigits(r[1..])
  {
    if n >= 0 then NatToDecimal(n) else "-" + NatToDecimal(-n)
  }

  /** Value of a string of decimal digits; the inverse partner of the renderings above. */
  function DecimalValue(s: string): nat
    requires AllDigits(s)
  {
    if |s| == 0 then 0 else 10 * DecimalValue(s[..|s| - 1]) + (s[|s| - 1] as int - '0' as int)
  }

  /** Parses the output of LongToString back: an optional minus sign, then digits. */
  function ParseLong(s: string): int
    requires |s| > 0
    requires AllDigits(s) || (s[0] == '-' && AllDigits(s[1..]))
  {
    if s[0] == '-' then -(DecimalValue(s[1..]) as int) else DecimalValue(s)
  }

  lemma {:induction false} NatToDecimalRoundTrip(n: nat)
    ensures DecimalValue(NatToDecimal(n)) == n
    decreases n
  {
    var r := NatToDecimal(n);
    if n >= 10 {
      NatToDecimalRoundTrip(n / 10);
      assert r[..|r| - 1] == NatToDecimal(n / 10);
    }
  }

  /** The decimal rendering of a Long loses nothing: parsing it gives the number back. */
  lemma LongToStringRoundTrip(n: int)
    ensures ParseLong(LongToString(n)) == n
  {
    if n >= 0 {
      NatToDecimalRoundTrip(n);
    } else {
      NatToDecimalRoundTrip(-n);
      assert LongToString(n)[1..] == NatToDecimal(-n);
    }
  }

  /**
   * Kotlin's `Long.div`, which truncates toward zero (Dafny's `/` is Euclidean):
   * the remainder left over has the sign of the dividend and is smaller than the divisor.
   */
  function TruncDiv(a: int, b: int): (q: int)
    requires b > 0
    ensures a >= 0 ==> 0 <= a - q * b < b
    ensures a < 0 ==> -b < a - q * b <= 0
  {
    if a >= 0 then a / b else -((-a) / b)
  }
}
